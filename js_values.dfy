/** The JavaScript values the dish catalog handles: numbers that may be NaN, the loosely
    typed price a caller may pass, truthiness as `!x` and `x || y` test it, `parseFloat`
    and `String.prototype.trim`. Amounts of money are integer cents throughout. */
module JsValues {

  datatype Option<T> = None | Some(value: T)

  /** Either a successful return value or a thrown `Error` carrying its message. */
  datatype Result<T> = Ok(value: T) | Threw(message: string)

  /** A JavaScript number in the role of a price: NaN, or a finite amount in cents. */
  datatype Num = NaN | Cents(cents: int)

  /** A dynamically typed price as a caller or a parsed JSON document supplies it.
      A string carries the number that `parseFloat` reads from it: how it parses
      decimal text is not part of this model. */
  datatype Raw = Undefined | Null | Number(n: Num) | Text(s: string, parsed: Num)

  /** The one constraint on a string's parse that holds however decimal text is read:
      `parseFloat("")` is NaN. */
  predicate ParsesSoundly(v: Raw) {
    v.Text? && v.s == "" ==> v.parsed.NaN?
  }

  /** NaN and 0 are the falsy numbers. */
  predicate NumTruthy(n: Num) {
    n.Cents? && n.cents != 0
  }

  /** The truthiness of a price value: `undefined`, `null`, NaN, 0 and "" are falsy. */
  predicate Truthy(v: Raw) {
    match v
    case Undefined => false
    case Null => false
    case Number(n) => NumTruthy(n)
    case Text(s, _) => s != ""
  }

  /** Exactly `undefined`, `null`, NaN, 0 and the empty string are falsy prices. */
  lemma FalsyPrices(v: Raw)
    ensures !Truthy(v) <==>
      v == Undefined || v == Null || v == Number(NaN) || v == Number(Cents(0)) || (v.Text? && v.s == "")
  {
    match v
    case Undefined =>
    case Null =>
    case Number(n) =>
    case Text(_, _) =>
  }

  /** The truthiness of a possibly missing string field. */
  predicate StrTruthy(s: Option<string>) {
    s.Some? && s.value != ""
  }

  /** `parseFloat(v)`: a number stays itself, a string yields what it parses to, and
      `undefined` and `null` are NaN. */
  function ParseFloat(v: Raw): (n: Num)
    ensures v.Number? ==> n == v.n
    ensures v.Text? ==> n == v.parsed
    ensures v.Undefined? || v.Null? ==> n.NaN?
  {
    match v
    case Undefined => NaN
    case Null => NaN
    case Number(n) => n
    case Text(_, p) => p
  }

  /** `parseFloat(v) || 0`: always a finite amount, 0 where parsing gives NaN. */
  function NumberOrZero(v: Raw): (r: Num)
    ensures r.Cents?
    ensures ParseFloat(v).Cents? ==> r == ParseFloat(v)
    ensures ParseFloat(v).NaN? ==> r == Cents(0)
  {
    var n := ParseFloat(v);
    if NumTruthy(n) then n else Cents(0)
  }

  /** `s || fallback` for a possibly missing string. */
  function StrOr(s: Option<string>, fallback: string): (r: string)
    ensures StrTruthy(s) ==> r == s.value
    ensures !StrTruthy(s) ==> r == fallback
  {
    if s.Some? && s.value != "" then s.value else fallback
  }

  /** `JSON.stringify` writes a NaN number as `null`; a finite number is written as itself. */
  function JsonNumber(n: Num): (v: Raw)
    ensures ParseFloat(v) == n
  {
    match n
    case NaN => Null
    case Cents(_) => Number(n)
  }

  /** The white-space characters `trim` removes, restricted to the ASCII ones, the
      no-break space and the byte-order mark. */
  predicate IsSpace(c: char) {
    c == ' ' || c == '\t' || c == '\n' || c == '\r' || c == '\U{B}' || c == '\U{C}'
    || c == '\U{A0}' || c == '\U{FEFF}'
  }

  /** Drops the leading white space. */
  function TrimStart(s: string): (r: string)
    ensures |r| <= |s| && r == s[|s| - |r|..]
    ensures forall i :: 0 <= i < |s| - |r| ==> IsSpace(s[i])
    ensures r == [] || !IsSpace(r[0])
  {
    if s != [] && IsSpace(s[0]) then TrimStart(s[1..]) else s
  }

  /** Drops the trailing white space. */
  function TrimEnd(s: string): (r: string)
    ensures |r| <= |s| && r == s[..|r|]
    ensures forall i :: |r| <= i < |s| ==> IsSpace(s[i])
    ensures r == [] || !IsSpace(r[|r| - 1])
  {
    if s != [] && IsSpace(s[|s| - 1]) then TrimEnd(s[..|s| - 1]) else s
  }

  /** `s.trim()`: the text between the leading and the trailing white space. */
  function Trim(s: string): (r: string)
    ensures |r| <= |s|
    ensures r == [] || (!IsSpace(r[0]) && !IsSpace(r[|r| - 1]))
    ensures exists a, b ::
      && 0 <= a <= b <= |s| && r == s[a..b]
      && (forall i :: 0 <= i < a ==> IsSpace(s[i]))
      && (forall i :: b <= i < |s| ==> IsSpace(s[i]))
  {
    var t := TrimStart(s);
    SliceOfSuffix(s, t, TrimEnd(t));
    TrimEnd(t)
  }

  /** A prefix `r` of a suffix `t` of `s`, with white space only before `t` and after `r`
      in `t`, is a slice of `s` with white space only outside it. */
  lemma SliceOfSuffix(s: string, t: string, r: string)
    requires |t| <= |s| && t == s[|s| - |t|..]
    requires forall i :: 0 <= i < |s| - |t| ==> IsSpace(s[i])
    requires |r| <= |t| && r == t[..|r|]
    requires forall i :: |r| <= i < |t| ==> IsSpace(t[i])
    ensures exists a, b ::
      && 0 <= a <= b <= |s| && r == s[a..b]
      && (forall i :: 0 <= i < a ==> IsSpace(s[i]))
      && (forall i :: b <= i < |s| ==> IsSpace(s[i]))
  {
    var a := |s| - |t|;
    var b := a + |r|;
    forall i | b <= i < |s| ensures IsSpace(s[i]) {
      assert s[i] == t[i - a];
    }
    assert r == s[a..b];
  }

  /** A string that neither starts nor ends with white space is its own trim. */
  lemma TrimOfTrimmed(s: string)
    requires s == [] || (!IsSpace(s[0]) && !IsSpace(s[|s| - 1]))
    ensures Trim(s) == s
  {
  }

  /** Trimming twice is trimming once. */
  lemma TrimIdempotent(s: string)
    ensures Trim(Trim(s)) == Trim(s)
  {
    TrimOfTrimmed(Trim(s));
  }

  /** A name of white space only is truthy, yet trims to the empty string. */
  lemma BlankTrimsToEmpty(s: string)
    requires s != [] && forall i :: 0 <= i < |s| ==> IsSpace(s[i])
    ensures StrTruthy(Some(s)) && Trim(s) == []
  {
  }
}
