/**
 * internal/data/runtime.go: a movie runtime is an int32 number of minutes
 * whose JSON form is the string `"<runtime> mins"`.
 */
module Runtime {
  import opened Wrappers
  import opened Decimal
  import Text

  type Runtime = Int32

  /** `ErrInvalidRuntimeFormat`, the only error `UnmarshalJSON` returns. */
  datatype RuntimeError = ErrInvalidRuntimeFormat

  /** `strconv.Quote` of a string with no quote, backslash or control character in it. */
  function Quote(s: string): (q: string)
    ensures |q| == |s| + 2 && q[0] == '"' && q[|q| - 1] == '"'
    ensures q[1..|q| - 1] == s
  {
    "\"" + s + "\""
  }

  /** `strconv.Unquote`, reduced to removing one pair of surrounding double quotes. */
  function Unquote(s: string): (r: Option<string>)
    ensures r.Some? <==> |s| >= 2 && s[0] == '"' && s[|s| - 1] == '"'
    ensures r.Some? ==> Quote(r.value) == s
  {
    if |s| >= 2 && s[0] == '"' && s[|s| - 1] == '"' then Some(s[1..|s| - 1]) else None
  }

  /** The unit that follows the number. */
  const Unit: string := "mins"

  /** `Runtime.MarshalJSON`: the quoted text `<r> mins`; it never returns an error. */
  function MarshalJSON(r: Runtime): (out: (string, Option<RuntimeError>))
    ensures out.1 == None
    ensures Unquote(out.0) == Some(FormatInt(r) + " " + Unit)
  {
    (Quote(FormatInt(r) + " " + Unit), None)
  }

  /**
   * `(*Runtime).UnmarshalJSON`: `receiver` is the value `*r` on entry; the
   * result is `*r` on return, with the error. Only a successful parse
   * assigns it.
   */
  function UnmarshalJSON(receiver: Runtime, json: string): (out: (Runtime, Option<RuntimeError>))
    ensures out.1.Some? ==> out.0 == receiver
  {
    match Unquote(json)
    case None => (receiver, Some(ErrInvalidRuntimeFormat))
    case Some(unquoted) =>
      var parts := Text.Split(unquoted, ' ');
      if |parts| != 2 || parts[1] != Unit then (receiver, Some(ErrInvalidRuntimeFormat))
      else
        match ParseInt(parts[0], Bits32)
        case None => (receiver, Some(ErrInvalidRuntimeFormat))
        case Some(n) => (n, None)
  }

  /** Round trip: unmarshalling what `MarshalJSON` produced restores every int32 runtime, negatives included. */
  lemma RoundTrip(r: Runtime, receiver: Runtime)
    ensures UnmarshalJSON(receiver, MarshalJSON(r).0) == (r, None)
  {
    var digits := FormatInt(r);
    assert ' ' !in digits by {
      assert forall i :: 0 < i < |digits| ==> IsDigit(digits[i]);
    }
    assert ' ' !in Unit;
    Text.SplitTwo(digits, Unit, ' ');
    ParseFormat(r, Bits32);
  }

  /** A successful unmarshal read the whole input as a quoted numeral, one space, and `mins`. */
  lemma SuccessShape(receiver: Runtime, json: string)
    requires UnmarshalJSON(receiver, json).1.None?
    ensures var numeral := Text.Split(Unquote(json).value, ' ')[0];
            && json == Quote(numeral + " " + Unit)
            && ParseInt(numeral, Bits32) == Some(UnmarshalJSON(receiver, json).0 as int)
  {
    var unquoted := Unquote(json).value;
    var parts := Text.Split(unquoted, ' ');
    Text.JoinSplit(unquoted, ' ');
    assert parts[1..] == [Unit];
  }

  /** Input that is not a double-quoted string is rejected and the receiver kept. */
  lemma RejectsUnquoted(receiver: Runtime, json: string)
    requires !(|json| >= 2 && json[0] == '"' && json[|json| - 1] == '"')
    ensures UnmarshalJSON(receiver, json) == (receiver, Some(ErrInvalidRuntimeFormat))
  {
  }

  /** A numeral and unit run together with no space (`228mins`) are rejected. */
  lemma RejectsMissingSpace(receiver: Runtime, unquoted: string)
    requires ' ' !in unquoted
    ensures UnmarshalJSON(receiver, Quote(unquoted)) == (receiver, Some(ErrInvalidRuntimeFormat))
  {
    Text.SplitNoSeparator(unquoted, ' ');
  }

  /** Two spaces between numeral and unit (`228  mins`) split into three parts and are rejected. */
  lemma RejectsDoubleSpace(receiver: Runtime, numeral: string, unit: string)
    requires ' ' !in numeral && ' ' !in unit
    ensures UnmarshalJSON(receiver, Quote(numeral + "  " + unit)) == (receiver, Some(ErrInvalidRuntimeFormat))
  {
    var parts := [numeral, "", unit];
    assert Text.Join(parts[1..], ' ') == [' '] + unit by {
      assert parts[1..][1..] == [unit];
    }
    assert Text.Join(parts, ' ') == numeral + "  " + unit;
    Text.SplitJoin(parts, ' ');
  }

  /** A unit other than `mins` (`228 minutes`) is rejected. */
  lemma RejectsOtherUnit(receiver: Runtime, numeral: string, unit: string)
    requires ' ' !in numeral && ' ' !in unit && unit != Unit
    ensures UnmarshalJSON(receiver, Quote(numeral + " " + unit)) == (receiver, Some(ErrInvalidRuntimeFormat))
  {
    Text.SplitTwo(numeral, unit, ' ');
  }

  /** A numeral that is not decimal or does not fit in int32 is rejected. */
  lemma RejectsBadNumeral(receiver: Runtime, numeral: string)
    requires ' ' !in numeral && ParseInt(numeral, Bits32).None?
    ensures UnmarshalJSON(receiver, Quote(numeral + " " + Unit)) == (receiver, Some(ErrInvalidRuntimeFormat))
  {
    assert ' ' !in Unit;
    Text.SplitTwo(numeral, Unit, ' ');
  }

  /** The runtime of the valid-movie fixture, 228, travels as `"228 mins"`. */
  lemma FixtureRuntime()
    ensures MarshalJSON(228).0 == "\"228 mins\""
  {
    assert FormatInt(228) == "228";
  }
}
