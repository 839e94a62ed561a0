/** The number tokens cJSON reads and writes. The conversion to a double is foreign; how much text strtod takes is not. */
module JsonNumber {
  import opened Bytes

  const PLUS: byte := 43
  const MINUS: byte := 45
  const DOT: byte := 46
  const LOWER_E: byte := 101
  const UPPER_E: byte := 69

  /** sizeof(number_c_string) - 1 in parse_number. */
  const MAX_PARSED: nat := 63

  /** sizeof(number_buffer) - 1 in print_number. */
  const MAX_PRINTED: nat := 25

  predicate Digit(b: byte) { 48 <= b <= 57 }

  /** The bytes parse_number copies before it stops. */
  predicate NumberByte(b: byte) {
    Digit(b) || b in {PLUS, MINUS, DOT, LOWER_E, UPPER_E}
  }

  /** The first position from `i` on that holds no digit. */
  function DigitsEnd(t: seq<byte>, i: nat): (e: nat)
    requires i <= |t|
    ensures i <= e <= |t|
    ensures forall k :: i <= k < e ==> Digit(t[k])
    ensures e < |t| ==> !Digit(t[e])
    decreases |t| - i
  {
    if i < |t| && Digit(t[i]) then DigitsEnd(t, i + 1) else i
  }

  function SignEnd(t: seq<byte>, i: nat): (e: nat)
    requires i <= |t|
    ensures i <= e <= |t|
  {
    if i < |t| && t[i] in {PLUS, MINUS} then i + 1 else i
  }

  /** End of an optional sign, digits and fraction, or 0 when there is no digit at all. */
  function MantissaEnd(t: seq<byte>): (e: nat)
    ensures e <= |t|
  {
    var s := SignEnd(t, 0);
    var whole := DigitsEnd(t, s);
    if whole < |t| && t[whole] == DOT then
      var fraction := DigitsEnd(t, whole + 1);
      if whole > s || fraction > whole + 1 then fraction else 0
    else if whole > s then whole
    else 0
  }

  /** How many bytes of `t` strtod converts: sign, digits, fraction, exponent; an exponent without digits is left alone. */
  function StrtodLength(t: seq<byte>): (e: nat)
    ensures e <= |t|
  {
    var m := MantissaEnd(t);
    if 0 < m < |t| && t[m] in {LOWER_E, UPPER_E} then
      var s := SignEnd(t, m + 1);
      var digits := DigitsEnd(t, s);
      if digits > s then digits else m
    else m
  }

  /** A token print_number can emit and parse_number recognises from its first byte. */
  predicate IsToken(t: seq<byte>) {
    && 0 < |t| <= MAX_PRINTED
    && (t[0] == MINUS || Digit(t[0]))
    && StrtodLength(t) == |t|
  }

  lemma TokenBytes(t: seq<byte>)
    requires StrtodLength(t) == |t|
    ensures forall i :: 0 <= i < |t| ==> NumberByte(t[i])
    ensures 0 !in t
  {
  }

  /** Where parse_number stops copying the bytes from `o` on, having reached `p`. */
  function SpanEnd(c: seq<byte>, o: nat, p: nat): (e: nat)
    requires o <= p <= o + MAX_PARSED && p <= |c|
    ensures p <= e <= o + MAX_PARSED && e <= |c|
    ensures forall k :: p <= k < e ==> NumberByte(c[k])
    decreases |c| - p
  {
    if p < o + MAX_PARSED && p < |c| && NumberByte(c[p]) then SpanEnd(c, o, p + 1) else p
  }

  /** parse_number copies up to the end of the buffer, the first other byte or its own limit. */
  lemma {:induction false} SpanEndIs(c: seq<byte>, o: nat, p: nat, e: nat)
    requires o <= p <= e <= o + MAX_PARSED && e <= |c|
    requires forall k :: p <= k < e ==> NumberByte(c[k])
    requires e == o + MAX_PARSED || e == |c| || !NumberByte(c[e])
    ensures SpanEnd(c, o, p) == e
    decreases e - p
  {
    if p == e {
    } else {
      SpanEndIs(c, o, p + 1, e);
    }
  }
}
