/**
 * The two timestamps of a packet on the wire: the output filter prints both as decimal strings
 * into a JSON object, the bus input filter reads them back with `atoll`.  JSON text itself is not
 * modelled: an object is the record of the three fields the reader looks up.
 */
module AudioMetaWire {
  import opened Common

  // ----- Decimal strings -----

  function Digit(d: nat): char
    requires d < 10
  {
    ('0' as int + d) as char
  }

  predicate IsDigit(c: char) {
    '0' <= c <= '9'
  }

  function DigitValue(c: char): (d: nat)
    requires IsDigit(c)
    ensures d < 10
  {
    c as int - '0' as int
  }

  function PrintNat(n: nat): (s: string)
    ensures s != "" && forall i | 0 <= i < |s| :: IsDigit(s[i])
  {
    if n < 10 then [Digit(n)] else PrintNat(n / 10) + [Digit(n % 10)]
  }

  /** `std::to_string` of an int64. */
  function ToString(n: Int64): string {
    if n < 0 then "-" + PrintNat(-(n as int)) else PrintNat(n)
  }

  predicate IsSpace(c: char) {
    c == ' ' || '\t' <= c <= '\r'
  }

  function SkipSpaces(s: string): string {
    if s != "" && IsSpace(s[0]) then SkipSpaces(s[1..]) else s
  }

  /**
   * The digit loop of `atoll`: subtracts each digit, so that the least int64 can be reached, and
   * stops at the first character that is no digit.  `None` is an intermediate value that does not
   * fit 64 bits, where C leaves the result undefined.
   */
  function Accumulate(s: string, negated: Int64): Option<Int64>
    requires negated <= 0
  {
    if s == "" || !IsDigit(s[0]) then
      Some(negated)
    else
      var next: int := 10 * (negated as int) - DigitValue(s[0]);
      if next < INT64_MIN then None else Accumulate(s[1..], next)
  }

  /** `std::atoll`: white space, an optional sign, digits. */
  function Atoll(s: string): Option<Int64> {
    var t := SkipSpaces(s);
    var minus := t != "" && t[0] == '-';
    var digits := if t != "" && (t[0] == '-' || t[0] == '+') then t[1..] else t;
    match Accumulate(digits, 0)
    case None => None
    case Some(v) => if minus then Some(v) else if v == INT64_MIN then None else Some(-(v as int))
  }

  lemma AccumulateDigit(d: nat, rest: string, negated: Int64)
    requires d < 10 && negated <= 0 && INT64_MIN <= 10 * (negated as int) - d
    ensures Accumulate([Digit(d)] + rest, negated) == Accumulate(rest, 10 * (negated as int) - d)
  {
    var s := [Digit(d)] + rest;
    assert s[0] == Digit(d) && s[1..] == rest;
  }

  /** Reading the digits of n and then those of `rest` continues from -n. */
  lemma {:induction false} AccumulatePrinted(n: nat, rest: string)
    requires -(n as int) >= INT64_MIN
    ensures Accumulate(PrintNat(n) + rest, 0) == Accumulate(rest, -(n as int))
  {
    if n < 10 {
      AccumulateDigit(n, rest, 0);
    } else {
      var high, low := n / 10, n % 10;
      assert n == 10 * high + low;
      assert PrintNat(n) + rest == PrintNat(high) + ([Digit(low)] + rest);
      AccumulatePrinted(high, [Digit(low)] + rest);
      AccumulateDigit(low, rest, -(high as int));
    }
  }

  /** Every int64, the least one included, is read back from its decimal string. */
  lemma AtollReadsBack(n: Int64)
    ensures Atoll(ToString(n)) == Some(n)
  {
    var magnitude: nat := if n < 0 then -(n as int) else n;
    var digits := PrintNat(magnitude);
    AccumulatePrinted(magnitude, "");
    assert digits + "" == digits && IsDigit(digits[0]);
    if n < 0 {
      assert ToString(n)[1..] == digits;
    }
  }

  predicate AllSpaces(w: string) {
    forall i | 0 <= i < |w| :: w[i] in {' ', '\t', '\n', '\r', 11 as char, 12 as char}
  }

  lemma {:induction false} SpacesAreSkipped(w: string, s: string)
    requires AllSpaces(w) && (s == "" || !IsSpace(s[0]))
    ensures SkipSpaces(w + s) == s
  {
    if w == "" {
      assert w + s == s;
    } else {
      SpacesAreSkipped(w[1..], s);
      assert (w + s)[1..] == w[1..] + s && (w + s)[0] == w[0];
    }
  }

  /** The digits of a number that fits are read after any sign, up to whatever is no digit. */
  lemma SignedDigitsAreRead(sign: string, digits: string, magnitude: nat)
    requires sign in {"", "+", "-"} && digits != "" && IsDigit(digits[0])
    requires -(magnitude as int) >= INT64_MIN && (sign != "-" ==> magnitude <= INT64_MAX)
    requires Accumulate(digits, 0) == Some(-(magnitude as int))
    ensures !IsSpace((sign + digits)[0])
    ensures Atoll(sign + digits) == Some(if sign == "-" then -(magnitude as int) else magnitude)
  {
    if sign == "" {
      assert sign + digits == digits;
    } else {
      assert (sign + digits)[0] == sign[0] && (sign + digits)[1..] == digits;
    }
  }

  lemma SpacesDoNotMatter(w: string, s: string)
    requires AllSpaces(w) && s != "" && !IsSpace(s[0])
    ensures Atoll(w + s) == Atoll(s)
  {
    SpacesAreSkipped(w, s);
  }

  lemma AtollReadsSigned(w: string, sign: string, magnitude: nat, rest: string)
    requires AllSpaces(w) && sign in {"", "+", "-"} && -(magnitude as int) >= INT64_MIN
    requires rest == "" || !('0' <= rest[0] <= '9')
    requires sign != "-" ==> magnitude <= INT64_MAX
    ensures Atoll(w + (sign + PrintNat(magnitude) + rest)) ==
      Some(if sign == "-" then -(magnitude as int) else magnitude)
  {
    var digits := PrintNat(magnitude) + rest;
    AccumulatePrinted(magnitude, rest);
    assert digits[0] == PrintNat(magnitude)[0];
    assert sign + PrintNat(magnitude) + rest == sign + digits;
    SignedDigitsAreRead(sign, digits, magnitude);
    SpacesDoNotMatter(w, sign + digits);
  }

  /** White space before a number, a plus sign, and anything after it that is no digit do not matter. */
  lemma AtollReadsLayout(w: string, n: Int64, rest: string)
    requires AllSpaces(w) && (rest == "" || !('0' <= rest[0] <= '9'))
    ensures Atoll(w + (ToString(n) + rest)) == Some(n)
    ensures n >= 0 ==> Atoll(w + ("+" + ToString(n) + rest)) == Some(n)
  {
    if n < 0 {
      AtollReadsSigned(w, "-", -(n as int), rest);
    } else {
      AtollReadsSigned(w, "", n, rest);
      AtollReadsSigned(w, "+", n, rest);
      assert "" + PrintNat(n) == PrintNat(n);
    }
  }

  // ----- The record on the wire -----

  /** A JSON value; a number is read through a 32-bit integer view. */
  datatype Json = Number(value: int) | Text(valuestring: string) | OtherJson

  /** The fields that the reader looks up, each absent or present. */
  datatype AudioMeta = AudioMeta(timestamp: Option<Json>, timestampString: Option<Json>, timestampSpecial: Option<Json>)

  const INT32_MIN: int := -0x8000_0000
  const INT32_MAX: int := 0x7fff_ffff

  /** The integer view that cJSON gives a number: saturated to 32 bits. */
  function Saturated(n: int): int {
    if n >= INT32_MAX then INT32_MAX else if n <= INT32_MIN then INT32_MIN else n
  }

  /** `MarshalAudioMeta`, the fields that carry the timestamps. */
  function Marshal(p: Packet): AudioMeta {
    AudioMeta(Some(Number(Saturated(p.pts))), Some(Text(ToString(p.pts))), Some(Text(ToString(p.special))))
  }

  predicate IsText(field: Option<Json>) {
    field.Some? && field.value.Text? && field.value.valuestring != ""
  }

  /** What `UnmarshalAudioMeta` returns, and the values it leaves in its two reference parameters. */
  datatype Parsed = Parsed(ok: bool, pts: Option<Int64>, special: Option<Int64>)

  /**
   * `UnmarshalAudioMeta` with both parameters 0 on entry.  An early return keeps what was stored up to
   * then, the numeric field first.  A value of `None` is an undefined result of `atoll`.
   */
  function Unmarshal(json: Option<AudioMeta>): Parsed {
    if json.None? || json.value.timestamp.None? || !json.value.timestamp.value.Number? then
      Parsed(false, Some(0), Some(0))
    else
      var numeric := Some(Saturated(json.value.timestamp.value.value));
      if !IsText(json.value.timestampString) then
        Parsed(false, numeric, Some(0))
      else
        var pts := Atoll(json.value.timestampString.value.valuestring);
        if !IsText(json.value.timestampSpecial) then
          Parsed(false, pts, Some(0))
        else
          Parsed(true, pts, Atoll(json.value.timestampSpecial.value.valuestring))
  }

  /** The reader is content exactly with a number and two strings that are not empty. */
  lemma UnmarshalSucceedsExactly(json: Option<AudioMeta>)
    ensures Unmarshal(json).ok <==>
      && json.Some?
      && json.value.timestamp.Some? && json.value.timestamp.value.Number?
      && json.value.timestampString.Some? && json.value.timestampString.value.Text?
      && json.value.timestampString.value.valuestring != ""
      && json.value.timestampSpecial.Some? && json.value.timestampSpecial.value.Text?
      && json.value.timestampSpecial.value.valuestring != ""
  {
  }

  /** The numeric field is the timestamp if that has 32 bits, and else the nearest number that has. */
  lemma NumericFieldIsNearest(p: Packet)
    ensures Marshal(p).timestamp == Some(Number(
      if p.pts > 2147483647 then 2147483647 else if p.pts < -2147483648 then -2147483648 else p.pts))
  {
  }

  /**
   * The wire loses nothing: the pair read is the pair printed, whatever the numeric field became on the
   * way.
   */
  lemma WireRoundTrip(p: Packet, numeric: int)
    ensures Unmarshal(Some(Marshal(p))) == Parsed(true, Some(p.pts), Some(p.special))
    ensures Unmarshal(Some(Marshal(p).(timestamp := Some(Number(numeric)))))
         == Parsed(true, Some(p.pts), Some(p.special))
  {
    AtollReadsBack(p.pts);
    AtollReadsBack(p.special);
  }

  /** So different packets never share a wire form, not even up to the numeric field. */
  lemma MarshalIsInjective(p: Packet, q: Packet, numeric: Option<Json>)
    requires Marshal(p).(timestamp := numeric) == Marshal(q).(timestamp := numeric)
    ensures p == q
  {
    AtollReadsBack(p.pts);
    AtollReadsBack(p.special);
    AtollReadsBack(q.pts);
    AtollReadsBack(q.special);
  }
}
