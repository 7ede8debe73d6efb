/**
 * The request readers of cmd/api/helpers.go: the `id` path parameter and
 * the string, comma-separated and integer query-string values.
 */
module Helpers {
  import opened Wrappers
  import opened Decimal
  import opened Validator
  import Text

  /** `url.Values`: every value given for each key, in order. */
  type Values = map<string, seq<string>>

  /** `Values.Get(key)`: the first value for the key, or "" when there is none. */
  function Get(qs: Values, key: string): (s: string)
    ensures key !in qs || qs[key] == [] ==> s == ""
    ensures key in qs && qs[key] != [] ==> s == qs[key][0]
  {
    if key in qs && qs[key] != [] then qs[key][0] else ""
  }

  const InvalidID: string := "invalid id parameter"

  /**
   * `readIDParam`, given the text of the `id` parameter: a decimal int64 of
   * at least 1, or 0 with the error "invalid id parameter".
   */
  function ReadIDParam(param: string): (out: (Int64, Option<string>))
    ensures out.1.None? <==> ParseInt(param, Bits64).Some? && ParseInt(param, Bits64).value >= 1
    ensures out.1.None? ==> Some(out.0 as int) == ParseInt(param, Bits64) && out.0 >= 1
    ensures out.1.Some? ==> out == (0, Some(InvalidID))
  {
    match ParseInt(param, Bits64)
    case None => (0, Some(InvalidID))
    case Some(id) => if id < 1 then (0, Some(InvalidID)) else (id, None)
  }

  /** Every positive int64 id, written in decimal, is read back. */
  lemma ReadIDFormatted(id: Int64)
    requires id >= 1
    ensures ReadIDParam(FormatInt(id)) == (id, None)
  {
    ParseFormat(id, Bits64);
  }

  /** Zero, negative ids and any text `ParseInt` refuses (`foo`, `12a`, a lone `+`, an int64 overflow) are invalid. */
  lemma ReadIDRejects(id: Int64, word: string)
    requires id < 1
    requires ParseInt(word, Bits64).None?
    ensures ReadIDParam(FormatInt(id)) == (0, Some(InvalidID))
    ensures ReadIDParam(word) == (0, Some(InvalidID))
  {
    ParseFormat(id, Bits64);
  }

  /** Every number beyond the int64 range, written in decimal, overflows and is an invalid id. */
  lemma ReadIDOverflow(n: nat)
    requires n > MaxInt64
    ensures ReadIDParam(FormatNat(n)) == (0, Some(InvalidID))
  {
    DigitsOfFormat(n);
    ReadIDRejects(0, FormatNat(n));
  }

  /** Trailing non-digits and a sign without digits are invalid ids. */
  lemma ReadIDMalformed()
    ensures ReadIDParam("12a") == (0, Some(InvalidID))
    ensures ReadIDParam("+") == (0, Some(InvalidID))
  {
    assert !IsDigit("12a"[2]);
    assert Unsigned("+") == [];
    ReadIDRejects(0, "12a");
    ReadIDRejects(0, "+");
  }

  /** The path `/v1/movies/foo` of the movie test carries an invalid id. */
  lemma ReadIDFixture()
    ensures ReadIDParam("foo") == (0, Some(InvalidID))
  {
    assert !IsDigit('f') && !IsSign('f');
    ReadIDRejects(0, "foo");
  }

  /** `readString`: the query value, or the default when it is empty or missing. */
  function ReadString(qs: Values, key: string, defaultValue: string): (r: string)
    ensures Get(qs, key) == "" ==> r == defaultValue
    ensures Get(qs, key) != "" ==> r == Get(qs, key)
  {
    var s := Get(qs, key);
    if s == "" then defaultValue else s
  }

  /**
   * `readCSV`: the default when the value is empty or missing, otherwise the
   * comma-separated parts, one more than there are commas, which joined
   * with commas give the value back.
   */
  function ReadCSV(qs: Values, key: string, defaultValue: seq<string>): (r: seq<string>)
    ensures Get(qs, key) == "" ==> r == defaultValue
    ensures Get(qs, key) != "" ==>
              && |r| == Text.Count(Get(qs, key), ',') + 1
              && (forall i :: 0 <= i < |r| ==> ',' !in r[i])
              && Text.Join(r, ',') == Get(qs, key)
  {
    var csv := Get(qs, key);
    if csv == "" then defaultValue
    else
      Text.JoinSplit(csv, ',');
      Text.Split(csv, ',')
  }

  /**
   * Comma-free values, joined with commas into one query value, are read
   * back as they were, unless the joined value is empty (`[""]`, which
   * reads as missing).
   */
  lemma ReadCSVJoined(key: string, values: seq<string>, defaultValue: seq<string>)
    requires Text.Join(values, ',') != ""
    requires forall i :: 0 <= i < |values| ==> ',' !in values[i]
    ensures ReadCSV(map[key := [Text.Join(values, ',')]], key, defaultValue) == values
  {
    assert |values| >= 1;
    Text.SplitJoin(values, ',');
  }

  const NotAnInteger: string := "must be an integer value"

  /**
   * `readInt`: the query value as an integer (`strconv.Atoi`, a 64-bit `int`).
   * An empty or missing value gives the default; a value that is not an
   * integer gives the default and records "must be an integer value" under
   * the key, unless the key already has a message.
   */
  method ReadInt(qs: Values, key: string, defaultValue: int, v: Validator) returns (i: int)
    modifies v
    ensures Get(qs, key) == "" ==> i == defaultValue && v.errors == old(v.errors)
    ensures Get(qs, key) != "" && ParseInt(Get(qs, key), Bits64).None? ==>
              i == defaultValue && v.errors == Added(old(v.errors), key, NotAnInteger)
    ensures Get(qs, key) != "" && ParseInt(Get(qs, key), Bits64).Some? ==>
              i == ParseInt(Get(qs, key), Bits64).value && v.errors == old(v.errors)
  {
    var s := Get(qs, key);
    if s == "" {
      return defaultValue;
    }
    var parsed := ParseInt(s, Bits64);
    if parsed.None? {
      v.AddError(key, NotAnInteger);
      return defaultValue;
    }
    i := parsed.value;
  }
}
