/**
 * The validation accumulator of internal/validator: a map from field name to
 * error message in which the first message recorded for a field wins, and the
 * field predicates the domain validators combine with it.
 */
module Validator {
  import opened Wrappers
  import Text

  /** The errors map after `AddError(key, message)`. */
  function Added(errors: map<string, string>, key: string, message: string): (r: map<string, string>)
    ensures r.Keys == errors.Keys + {key}
    ensures forall k :: k in errors ==> r[k] == errors[k]
    ensures key !in errors ==> r[key] == message
  {
    if key in errors then errors else errors[key := message]
  }

  /** The errors map after `Check(ok, key, message)`. */
  function Checked(errors: map<string, string>, ok: bool, key: string, message: string): (r: map<string, string>)
    ensures ok ==> r == errors
    ensures !ok ==> key in r
    ensures r.Keys <= errors.Keys + {key}
    ensures forall k :: k in errors ==> k in r && r[k] == errors[k]
    ensures !ok && key !in errors ==> r[key] == message
  {
    if ok then errors else Added(errors, key, message)
  }

  /** `Validator`: the errors recorded so far, keyed by field. */
  class Validator {
    var errors: map<string, string>

    /** `validator.New()`: a validator with no errors. */
    constructor New()
      ensures errors == map[]
    {
      errors := map[];
    }

    /** `Valid()`: no error has been recorded. */
    predicate Valid()
      reads this
      ensures Valid() <==> errors == map[]
    {
      |errors| == 0
    }

    /** `AddError(key, message)`: records `message` unless `key` already has one. */
    method AddError(key: string, message: string)
      modifies this
      ensures errors == Added(old(errors), key, message)
    {
      if key !in errors {
        errors := errors[key := message];
      }
    }

    /** `Check(ok, key, message)`: records `message` under `key` when the check fails. */
    method Check(ok: bool, key: string, message: string)
      modifies this
      ensures errors == Checked(old(errors), ok, key, message)
    {
      if !ok {
        AddError(key, message);
      }
    }
  }

  /** The message of the first failing check for a field, if any. */
  function Entry(key: string, message: Option<string>): (r: map<string, string>)
    ensures key in r <==> message.Some?
    ensures r.Keys <= {key}
    ensures message.Some? ==> r[key] == message.value
  {
    if message.Some? then map[key := message.value] else map[]
  }

  /** The first message a field gets is the last one a second check can change: a later failing check on it records nothing. */
  function FirstFailure(first: Option<string>, ok: bool, message: string): (r: Option<string>)
    ensures first.Some? ==> r == first
    ensures first.None? ==> (r.Some? <==> !ok)
    ensures r.Some? ==> r == first || r == Some(message)
  {
    if first.Some? then first else if ok then None else Some(message)
  }

  /**
   * One more `Check` on a field whose checks so far recorded `first` (on top
   * of the errors that were there before): the field now holds the first
   * failing message of all its checks, and an earlier entry is never replaced.
   */
  lemma CheckedEntry(errors: map<string, string>, key: string, first: Option<string>, ok: bool, message: string)
    ensures Checked(Entry(key, first) + errors, ok, key, message)
         == Entry(key, FirstFailure(first, ok, message)) + errors
  {
    if key in errors {
      assert Entry(key, first) + errors == errors;
      assert Entry(key, FirstFailure(first, ok, message)) + errors == errors;
    }
  }

  /** Map union is associative, so the entries of consecutive checks can be regrouped. */
  lemma UnionAssociative(a: map<string, string>, b: map<string, string>, c: map<string, string>)
    ensures (a + b) + c == a + (b + c)
  {
  }

  /** `PermittedValue(value, permitted...)`: `value` is one of the permitted values. */
  function PermittedValue<T(==)>(value: T, permitted: seq<T>): (r: bool)
    ensures r <==> exists i :: 0 <= i < |permitted| && permitted[i] == value
  {
    value in permitted
  }

  /** No value occurs twice in `xs`. */
  predicate NoDuplicates<T(==)>(xs: seq<T>) {
    forall i, j :: 0 <= i < j < |xs| ==> xs[i] != xs[j]
  }

  /** The set of values occurring in `xs`. */
  function Elements<T(!new)>(xs: seq<T>): (s: set<T>)
    ensures forall x :: x in s <==> x in xs
    decreases |xs|
  {
    if xs == [] then {} else Elements(xs[..|xs| - 1]) + {xs[|xs| - 1]}
  }

  /** A sequence has as many distinct values as elements exactly when nothing repeats. */
  lemma {:induction false} ElementsCardinality<T(!new)>(xs: seq<T>)
    ensures |Elements(xs)| <= |xs|
    ensures |Elements(xs)| == |xs| <==> NoDuplicates(xs)
    decreases |xs|
  {
    if xs != [] {
      var init, last := xs[..|xs| - 1], xs[|xs| - 1];
      ElementsCardinality(init);
      assert xs == init + [last];
      if last in init {
        var k :| 0 <= k < |init| && init[k] == last;
        assert xs[k] == xs[|xs| - 1];
        assert Elements(xs) == Elements(init);
      } else {
        assert NoDuplicates(xs) <==> NoDuplicates(init);
      }
    }
  }

  /**
   * `Unique(values)`: fills a set with the values and compares its size with
   * the number of values, which holds exactly when no value repeats.
   */
  method Unique<T(==,!new)>(values: seq<T>) returns (r: bool)
    ensures r <==> NoDuplicates(values)
  {
    var seen: set<T> := {};
    for i := 0 to |values|
      invariant seen == Elements(values[..i])
    {
      assert values[..i + 1][..i] == values[..i];
      seen := seen + {values[i]};
    }
    assert values[..|values|] == values;
    ElementsCardinality(values);
    r := |values| == |seen|;
  }

  // The e-mail pattern `EmailRX` (the "valid e-mail address" production of
  // the WHATWG HTML Living Standard, section 4.10.5.1.5), written out as
  // predicates over its parts.

  predicate IsAlnum(c: char) {
    ('a' <= c <= 'z') || ('A' <= c <= 'Z') || ('0' <= c <= '9')
  }

  /** The character class of the part before `@`. */
  predicate IsLocalChar(c: char) {
    IsAlnum(c) || c in ".!#$%&'*+/=?^_`{|}~-"
  }

  /** One or more local-part characters. */
  predicate IsLocalPart(s: string) {
    |s| >= 1 && forall i :: 0 <= i < |s| ==> IsLocalChar(s[i])
  }

  /** A domain label: 1 to 63 letters, digits or hyphens, beginning and ending with a letter or digit. */
  predicate IsLabel(s: string) {
    && 1 <= |s| <= 63
    && IsAlnum(s[0]) && IsAlnum(s[|s| - 1])
    && forall i :: 0 < i < |s| - 1 ==> IsAlnum(s[i]) || s[i] == '-'
  }

  /** Labels separated by single dots. */
  predicate IsDomain(s: string) {
    var labels := Text.Split(s, '.');
    forall i :: 0 <= i < |labels| ==> IsLabel(labels[i])
  }

  /** `Matches(s, EmailRX)`: a local part, one `@`, and a domain. */
  predicate MatchesEmail(s: string) {
    var parts := Text.Split(s, '@');
    |parts| == 2 && IsLocalPart(parts[0]) && IsDomain(parts[1])
  }

  lemma {:induction false} NotInJoin(parts: seq<string>, sep: char, c: char)
    requires c != sep
    requires forall i :: 0 <= i < |parts| ==> c !in parts[i]
    ensures c !in Text.Join(parts, sep)
    decreases |parts|
  {
    if |parts| > 1 {
      NotInJoin(parts[1..], sep, c);
    }
  }

  lemma LocalPartHasNoAt(s: string)
    requires IsLocalPart(s)
    ensures '@' !in s
  {
    forall i | 0 <= i < |s| ensures s[i] != '@' {
      assert IsLocalChar(s[i]);
    }
  }

  lemma LabelHasNoSeparator(s: string)
    requires IsLabel(s)
    ensures '.' !in s && '@' !in s
  {
    forall i | 0 <= i < |s| ensures s[i] != '.' && s[i] != '@' {
      assert IsAlnum(s[i]) || s[i] == '-';
    }
  }

  /** Every address built from a local part and one or more labels matches the pattern. */
  lemma EmailCompose(local: string, labels: seq<string>)
    requires IsLocalPart(local)
    requires |labels| >= 1 && forall i :: 0 <= i < |labels| ==> IsLabel(labels[i])
    ensures MatchesEmail(local + "@" + Text.Join(labels, '.'))
  {
    var domain := Text.Join(labels, '.');
    LocalPartHasNoAt(local);
    forall i | 0 <= i < |labels| ensures '.' !in labels[i] && '@' !in labels[i] {
      LabelHasNoSeparator(labels[i]);
    }
    NotInJoin(labels, '.', '@');
    Text.SplitTwo(local, domain, '@');
    assert Text.Split(local + "@" + domain, '@') == [local, domain];
    Text.SplitJoin(labels, '.');
    assert IsDomain(domain);
  }

  /** Every matching address is a local part, `@`, and dot-joined valid labels. */
  lemma EmailDecompose(s: string)
    requires MatchesEmail(s)
    ensures var parts := Text.Split(s, '@');
            var labels := Text.Split(parts[1], '.');
            && IsLocalPart(parts[0])
            && |labels| >= 1 && (forall i :: 0 <= i < |labels| ==> IsLabel(labels[i]))
            && s == parts[0] + "@" + Text.Join(labels, '.')
  {
    var parts := Text.Split(s, '@');
    Text.JoinSplit(s, '@');
    Text.JoinSplit(parts[1], '.');
    assert parts[1..] == [parts[1]];
  }

  /** The address of the invalid-user fixture, `j.chan`, has no `@` and is rejected. */
  lemma RejectsNoAt()
    ensures !MatchesEmail("j.chan")
  {
    assert '@' !in "j.chan";
    Text.SplitNoSeparator("j.chan", '@');
  }

  /** The address of the active-user fixture, `a.wong@mail.com` (local part `a.wong`, labels `mail` and `com`), is accepted. */
  lemma AcceptsFixture()
    ensures MatchesEmail("a.wong" + "@" + Text.Join(["mail", "com"], '.'))
  {
    var labels := ["mail", "com"];
    assert IsLocalPart("a.wong");
    assert IsLabel(labels[0]) && IsLabel(labels[1]);
    EmailCompose("a.wong", labels);
  }
}
