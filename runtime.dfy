/** internal/data/runtime.go: a movie's running time, written in JSON as "<n> mins". */
module Runtime {
  import opened Wrappers
  import opened Strings
  import opened Strconv

  /** Go's `type Runtime int32`. */
  type Runtime = x: int | Int32Min <= x <= Int32Max

  datatype Error = ErrInvalidRuntimeFormat

  /** `MarshalJSON()`: the decimal number and " mins", quoted; it never fails. */
  function MarshalJSON(r: Runtime): (json: string)
    ensures json == "\"" + FormatInt(r) + " mins\""
  {
    var text := FormatInt(r) + " mins";
    PlainText(r);
    Quote(text)
  }

  /**
   * `UnmarshalJSON(json)` on a receiver holding `receiver`: the value the
   * receiver holds afterwards and the error returned. The receiver is written
   * only when every step succeeds.
   */
  function UnmarshalJSON(receiver: Runtime, json: string): (r: (Runtime, Option<Error>))
    ensures r.1.Some? ==> r == (receiver, Some(ErrInvalidRuntimeFormat))
    ensures Unquote(json).None? ==> r.1.Some?
    ensures r.1.None? ==> exists n :: json == "\"" + n + " mins\"" && ParseInt32(n) == Some(r.0 as int)
  {
    match Unquote(json)
    case None => (receiver, Some(ErrInvalidRuntimeFormat))
    case Some(text) =>
      var parts := Split(text, ' ');
      if |parts| != 2 || parts[1] != "mins" then (receiver, Some(ErrInvalidRuntimeFormat))
      else
        match ParseInt32(parts[0])
        case None => (receiver, Some(ErrInvalidRuntimeFormat))
        case Some(i) =>
          ShapeFromParts(json, text);
          (i, None)
  }

  /** Unquoted text that splits into a number and "mins" came from `"<number> mins"`. */
  lemma ShapeFromParts(json: string, text: string)
    requires Unquote(json) == Some(text)
    requires |Split(text, ' ')| == 2 && Split(text, ' ')[1] == "mins"
    ensures json == "\"" + Split(text, ' ')[0] + " mins\""
  {
    var parts := Split(text, ' ');
    JoinSplit(text, ' ');
    assert Join(parts, ' ') == parts[0] + [' '] + parts[1];
    assert text == parts[0] + " mins";
  }

  /**
   * Every `"<n> mins"` whose count is a base-10 int32 literal is accepted with
   * that value, including forms `MarshalJSON` never writes ("+5", "007", "-0").
   */
  lemma AcceptsLiteral(receiver: Runtime, n: string)
    requires ParseInt32(n).Some?
    ensures UnmarshalJSON(receiver, "\"" + n + " mins\"") == (ParseInt32(n).value, None)
  {
    var json := "\"" + n + " mins\"";
    var digits := DigitsOf(n);
    assert ' ' !in n by {
      forall k | 0 <= k < |n| ensures n[k] != ' ' {
        if n[0] == '-' || n[0] == '+' {
          if k > 0 {
            assert n[k] == digits[k - 1];
          }
        } else {
          assert n[k] == digits[k];
        }
      }
    }
    assert json[1..|json| - 1] == n + " mins";
    ShapeOf(n, json);
  }

  /** Text whose split on " " is not exactly a number followed by "mins" is refused. */
  lemma RejectsBadShape(receiver: Runtime, json: string, text: string)
    requires Unquote(json) == Some(text)
    requires |Split(text, ' ')| != 2 || Split(text, ' ')[1] != "mins"
    ensures UnmarshalJSON(receiver, json) == (receiver, Some(ErrInvalidRuntimeFormat))
  {
  }

  /** A first part that is not a base-10 int32 is refused. */
  lemma RejectsBadNumber(receiver: Runtime, json: string, n: string)
    requires ' ' !in n && ParseInt32(n).None?
    requires json == "\"" + n + " mins\""
    ensures UnmarshalJSON(receiver, json) == (receiver, Some(ErrInvalidRuntimeFormat))
  {
    ShapeOf(n, json);
  }

  /** Unquoting and splitting `"<n> mins"` gives back `n` and "mins". */
  lemma ShapeOf(n: string, json: string)
    requires ' ' !in n && json == "\"" + n + " mins\""
    ensures Unquote(json).Some? ==> Unquote(json) == Some(n + " mins") && Split(n + " mins", ' ') == [n, "mins"]
  {
    assert json[1..|json| - 1] == n + " mins";
    assert Join([n, "mins"], ' ') == n + " mins";
    SplitJoin([n, "mins"], ' ');
  }

  /** The text `MarshalJSON` quotes needs no escaping. */
  lemma PlainText(r: int)
    ensures Plain(FormatInt(r) + " mins")
  {
    var d := if r < 0 then NatToDecimal(-r) else NatToDecimal(r);
    assert forall i :: 0 <= i < |d| ==> IsDigit(d[i]);
  }

  /** Decoding what `MarshalJSON` wrote restores the value, whatever the receiver held. */
  lemma {:induction false} RoundTrip(receiver: Runtime, r: Runtime)
    ensures UnmarshalJSON(receiver, MarshalJSON(r)) == (r, None)
  {
    var n := FormatInt(r);
    var text := n + " mins";
    var json := MarshalJSON(r);
    PlainText(r);
    UnquoteQuote(text);
    assert Unquote(json) == Some(text);
    ShapeOf(n, json);
    assert Split(text, ' ') == [n, "mins"];
    FormatParse(r, Int32Min, Int32Max);
    assert ParseInt32(n) == Some(r as int);
  }
}
