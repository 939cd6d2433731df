/**
 Control sequences written back as bytes (src/utils/ansi_parser.rs): a parsed sequence is printed
 again as introducer, parameters, intermediates and final byte (section 5.4 of ECMA-48).  The
 reference is a decoder for that format; the theorems say what it recovers, hence exactly which
 parsed sequences are printed alike, and exactly which received sequences are printed as received.
 */
module ControlSequences {
  import opened Basics

  type u16 = n: int | 0 <= n < 0x1_0000

  const ESC: byte := 0x1B
  const CSI: byte := 0x5B  // '['
  const DCS: byte := 0x50  // 'P'
  const SEPARATOR: byte := 0x3B  // ';'
  const COLON: byte := 0x3A

  /** One entry per parameter: its sub-parameters. */
  type Params = seq<seq<u16>>

  predicate IsDigit(b: byte) { 0x30 <= b <= 0x39 }

  predicate IsParameterByte(b: byte) { IsDigit(b) || b == SEPARATOR }

  /** The private markers, `<` to `?`, with which a parameter string may begin. */
  predicate IsMarker(b: byte) { 0x3C <= b <= 0x3F }

  /** What the parser collects beside the parameters: intermediate bytes, and a private marker. */
  predicate IsIntermediate(b: byte) { 0x20 <= b <= 0x2F || IsMarker(b) }

  predicate IsFinal(b: byte) { 0x40 <= b <= 0x7E }

  // ----- printing -----------------------------------------------------------------------------

  /** `to_string` of an unsigned number. */
  function Decimal(n: nat): seq<byte> {
    if n < 10 then [0x30 + n] else Decimal(n / 10) + [0x30 + n % 10]
  }

  /** The sub-parameters of one parameter are printed without anything between them. */
  function Field(subs: seq<u16>): seq<byte> {
    if subs == [] then [] else Field(subs[..|subs| - 1]) + Decimal(subs[|subs| - 1])
  }

  function Fields(params: Params): (fields: seq<seq<byte>>)
    ensures |fields| == |params|
  {
    seq(|params|, i requires 0 <= i < |params| => Field(params[i]))
  }

  function Join(fields: seq<seq<byte>>): seq<byte> {
    if fields == [] then []
    else if |fields| == 1 then fields[0]
    else Join(fields[..|fields| - 1]) + [SEPARATOR] + fields[|fields| - 1]
  }

  /** A character becomes its low eight bits. */
  function LowByte(c: char): byte { c as int % 256 }

  function Printed(introducer: byte, params: Params, intermediates: seq<byte>, command: char): seq<byte> {
    [ESC, introducer] + (Join(Fields(params)) + (intermediates + [LowByte(command)]))
  }

  // ----- decoding -----------------------------------------------------------------------------

  /** A decoded sequence; each field is the digits of one parameter. */
  datatype Decoded = Decoded(introducer: byte, fields: seq<seq<byte>>, intermediates: seq<byte>, final: byte)

  function RunLength(s: seq<byte>, accepts: byte -> bool): (n: nat)
    ensures n <= |s|
  {
    if s == [] || !accepts(s[0]) then 0 else 1 + RunLength(s[1..], accepts)
  }

  function SplitFields(s: seq<byte>): (r: seq<seq<byte>>)
    ensures |r| > 0
  {
    if s == [] then [[]]
    else
      var r := SplitFields(s[1..]);
      if s[0] == SEPARATOR then [[]] + r else [[s[0]] + r[0]] + r[1..]
  }

  /** What follows the parameters: intermediates and one final byte. */
  function DecodeTail(introducer: byte, fields: seq<seq<byte>>, s: seq<byte>): Option<Decoded> {
    var q := RunLength(s, IsIntermediate);
    if q + 1 == |s| && IsFinal(s[q]) then Some(Decoded(introducer, fields, s[..q], s[q])) else None
  }

  function DecodeBody(introducer: byte, s: seq<byte>): Option<Decoded> {
    var p := RunLength(s, IsParameterByte);
    DecodeTail(introducer, if p == 0 then [] else SplitFields(s[..p]), s[p..])
  }

  function Decode(s: seq<byte>): Option<Decoded> {
    if |s| < 2 || s[0] != ESC then None else DecodeBody(s[1], s[2..])
  }

  /** The number a field stands for. */
  function Number(digits: seq<byte>): int {
    if digits == [] then 0 else 10 * Number(digits[..|digits| - 1]) + (digits[|digits| - 1] as int - 0x30)
  }

  // ----- what the printed form determines --------------------------------------------------------

  lemma {:induction false} DecimalDigits(n: nat)
    ensures Decimal(n) != [] && Number(Decimal(n)) == n
    ensures forall b :: b in Decimal(n) ==> IsDigit(b)
  {
    if n < 10 {
      assert Number([]) == 0 && [0x30 + n][..0] == [];
    } else {
      DecimalDigits(n / 10);
      assert Decimal(n)[..|Decimal(n)| - 1] == Decimal(n / 10);
    }
  }

  lemma {:induction false} FieldDigits(subs: seq<u16>)
    ensures forall b :: b in Field(subs) ==> IsDigit(b)
    ensures subs != [] ==> Field(subs) != []
  {
    if subs != [] {
      FieldDigits(subs[..|subs| - 1]);
      DecimalDigits(subs[|subs| - 1]);
    }
  }

  lemma {:induction false} RunStops(x: seq<byte>, y: seq<byte>, accepts: byte -> bool)
    requires forall b :: b in x ==> accepts(b)
    requires y != [] && !accepts(y[0])
    ensures RunLength(x + y, accepts) == |x|
  {
    if x == [] {
      assert x + y == y;
    } else {
      assert accepts(x[0]) && (x + y)[1..] == x[1..] + y;
      RunStops(x[1..], y, accepts);
    }
  }

  lemma {:induction false} SplitMore(s: seq<byte>, field: seq<byte>)
    requires SEPARATOR !in field
    ensures SplitFields(s + [SEPARATOR] + field) == SplitFields(s) + [field]
  {
    if s == [] {
      assert s + [SEPARATOR] + field == [SEPARATOR] + field;
      assert ([SEPARATOR] + field)[1..] == field;
      SplitOne(field);
    } else {
      assert (s + [SEPARATOR] + field)[1..] == s[1..] + [SEPARATOR] + field;
      SplitMore(s[1..], field);
    }
  }

  lemma {:induction false} SplitOne(field: seq<byte>)
    requires SEPARATOR !in field
    ensures SplitFields(field) == [field]
  {
    if field != [] {
      SplitOne(field[1..]);
      assert field == [field[0]] + field[1..];
    }
  }

  /** Fields without a separator can be read back. */
  lemma {:induction false} JoinSplit(fields: seq<seq<byte>>)
    requires fields != []
    requires forall f :: f in fields ==> SEPARATOR !in f
    ensures SplitFields(Join(fields)) == fields
  {
    var n := |fields| - 1;
    var last := fields[n];
    assert last in fields;
    if n == 0 {
      SplitOne(last);
      assert fields == [last];
    } else {
      assert forall f :: f in fields[..n] ==> f in fields;
      JoinSplit(fields[..n]);
      SplitMore(Join(fields[..n]), last);
      assert fields == fields[..n] + [last];
    }
  }

  lemma {:induction false} JoinBytes(fields: seq<seq<byte>>)
    requires forall f, b :: f in fields && b in f ==> IsDigit(b)
    ensures forall b :: b in Join(fields) ==> IsParameterByte(b)
  {
    if fields != [] {
      assert fields[|fields| - 1] in fields;
      assert forall f :: f in fields[..|fields| - 1] ==> f in fields;
      JoinBytes(fields[..|fields| - 1]);
    }
  }

  lemma {:induction false} JoinHolds(fields: seq<seq<byte>>, i: nat, b: byte)
    requires i < |fields| && b in fields[i]
    ensures b in Join(fields)
  {
    if |fields| > 1 && i < |fields| - 1 {
      JoinHolds(fields[..|fields| - 1], i, b);
    }
  }

  /** The sequences the escape-sequence parser hands over: no parameter without a sub-parameter, and
      nothing but intermediates, private markers among them, and a final byte. */
  ghost predicate Wellformed(params: Params, intermediates: seq<byte>, command: char) {
    && (forall i :: 0 <= i < |params| ==> params[i] != [])
    && (forall b :: b in intermediates ==> IsIntermediate(b))
    && IsFinal(LowByte(command))
  }

  lemma FieldsOf(params: Params)
    requires forall i :: 0 <= i < |params| ==> params[i] != []
    ensures forall f, b :: f in Fields(params) && b in f ==> IsDigit(b)
    ensures forall f :: f in Fields(params) ==> f != []
  {
    forall i | 0 <= i < |params|
      ensures Fields(params)[i] != [] && forall b :: b in Fields(params)[i] ==> IsDigit(b)
    {
      FieldDigits(params[i]);
    }
  }

  lemma HeaderParts(introducer: byte, body: seq<byte>)
    ensures Decode([ESC, introducer] + body) == DecodeBody(introducer, body)
  {
    assert ([ESC, introducer] + body)[2..] == body;
  }

  lemma PrintedFields(params: Params)
    requires forall i :: 0 <= i < |params| ==> params[i] != []
    ensures Fields(params) == if Join(Fields(params)) == [] then [] else SplitFields(Join(Fields(params)))
    ensures forall b :: b in Join(Fields(params)) ==> IsParameterByte(b)
  {
    FieldsOf(params);
    JoinBytes(Fields(params));
    if params != [] {
      forall f | f in Fields(params) ensures SEPARATOR !in f {
        assert forall b :: b in f ==> IsDigit(b);
      }
      JoinSplit(Fields(params));
      var first := Fields(params)[0];
      assert first in Fields(params);
      JoinHolds(Fields(params), 0, first[0]);
    }
  }

  lemma TailParts(introducer: byte, fields: seq<seq<byte>>, intermediates: seq<byte>, final: byte)
    requires forall b :: b in intermediates ==> IsIntermediate(b)
    requires IsFinal(final)
    ensures DecodeTail(introducer, fields, intermediates + [final]) == Some(Decoded(introducer, fields, intermediates, final))
  {
    RunStops(intermediates, [final], IsIntermediate);
  }

  lemma BodyParts(introducer: byte, text: seq<byte>, intermediates: seq<byte>, final: byte)
    requires forall b :: b in text ==> IsParameterByte(b)
    requires forall b :: b in intermediates ==> IsIntermediate(b)
    requires IsFinal(final)
    ensures DecodeBody(introducer, text + (intermediates + [final]))
         == Some(Decoded(introducer, if text == [] then [] else SplitFields(text), intermediates, final))
  {
    var rest := intermediates + [final];
    assert rest[0] == if intermediates == [] then final else intermediates[0];
    assert intermediates != [] ==> intermediates[0] in intermediates;
    RunStops(text, rest, IsParameterByte);
    assert (text + rest)[..|text|] == text && (text + rest)[|text|..] == rest;
    TailParts(introducer, if text == [] then [] else SplitFields(text), intermediates, final);
  }

  /** The decoder reads back the digits of every parameter, the intermediates and the final byte. */
  lemma DecodePrinted(introducer: byte, params: Params, intermediates: seq<byte>, command: char)
    requires Wellformed(params, intermediates, command)
    ensures Decode(Printed(introducer, params, intermediates, command))
         == Some(Decoded(introducer, Fields(params), intermediates, LowByte(command)))
  {
    PrintedFields(params);
    var text := Join(Fields(params));
    BodyParts(introducer, text, intermediates, LowByte(command));
    HeaderParts(introducer, text + (intermediates + [LowByte(command)]));
  }

  /** Two sequences are printed alike if and only if they agree on everything but how the digits of
      a parameter are shared out among its sub-parameters. */
  lemma PrintedAlike(i1: byte, p1: Params, m1: seq<byte>, c1: char, i2: byte, p2: Params, m2: seq<byte>, c2: char)
    requires Wellformed(p1, m1, c1) && Wellformed(p2, m2, c2)
    ensures Printed(i1, p1, m1, c1) == Printed(i2, p2, m2, c2)
       <==> i1 == i2 && Fields(p1) == Fields(p2) && m1 == m2 && LowByte(c1) == LowByte(c2)
  {
    DecodePrinted(i1, p1, m1, c1);
    DecodePrinted(i2, p2, m2, c2);
  }

  /** With one sub-parameter each, the parameters themselves are recovered. */
  lemma DecodeParameters(introducer: byte, params: Params, intermediates: seq<byte>, command: char)
    requires Wellformed(params, intermediates, command)
    requires forall i :: 0 <= i < |params| ==> |params[i]| == 1
    ensures var d := Decode(Printed(introducer, params, intermediates, command));
            && d.Some? && |d.value.fields| == |params|
            && (forall i :: 0 <= i < |params| ==> params[i] == [Number(d.value.fields[i])])
            && d.value.intermediates == intermediates && d.value.final == LowByte(command)
  {
    DecodePrinted(introducer, params, intermediates, command);
    forall i | 0 <= i < |params|
      ensures params[i] == [Number(Fields(params)[i])]
    {
      var n: nat := params[i][0];
      assert params[i] == [n] && params[i][..0] == [];
      assert Field(params[i]) == [] + Decimal(n) == Decimal(n);
      DecimalDigits(n);
    }
  }

  /** Sub-parameters run together: two of them are printed like one longer number. */
  lemma SubParametersCollide(introducer: byte, a: u16, d: u16, intermediates: seq<byte>, command: char)
    requires 0 < a && d < 10 && 10 * a + d < 0x1_0000
    ensures Printed(introducer, [[a, d]], intermediates, command)
         == Printed(introducer, [[10 * a + d]], intermediates, command)
  {
    var n: nat := 10 * a + d;
    assert n / 10 == a && n % 10 == d;
    assert [a, d][..1] == [a] && [a][..0] == [] && [n][..0] == [];
    assert Field([a, d]) == Field([a]) + Decimal(d);
    assert Field([a]) == [] + Decimal(a) == Decimal(a);
    assert Field([n]) == [] + Decimal(n) == Decimal(n);
    assert Fields([[a, d]]) == [Field([a, d])] && Fields([[n]]) == [Field([n])];
  }

  // ----- what was received ------------------------------------------------------------------------

  /** A sequence as it arrives: a private marker or none, for each parameter the digits of its
      sub-parameters, intermediates and a final byte.  A sequence without parameters has one, which
      is empty. */
  datatype Sequence = Sequence(marker: seq<byte>, parameters: seq<seq<seq<byte>>>, intermediates: seq<byte>, final: byte)

  ghost predicate Receivable(q: Sequence) {
    && |q.marker| <= 1 && (forall b :: b in q.marker ==> IsMarker(b))
    && q.parameters != [] && (forall subs :: subs in q.parameters ==> subs != [] && AllDigits(subs))
    && (forall b :: b in q.intermediates ==> 0x20 <= b <= 0x2F)
    && IsFinal(q.final)
  }

  ghost predicate AllDigits(subs: seq<seq<byte>>) { forall d, b :: d in subs && b in d ==> IsDigit(b) }

  /** One parameter's text: its sub-parameters with colons between them. */
  function SubText(subs: seq<seq<byte>>): seq<byte> {
    if subs == [] then []
    else if |subs| == 1 then subs[0]
    else SubText(subs[..|subs| - 1]) + [COLON] + subs[|subs| - 1]
  }

  lemma SubTextMore(subs: seq<seq<byte>>, digits: seq<byte>)
    ensures SubText([digits]) == digits
    ensures subs != [] ==> SubText(subs + [digits]) == SubText(subs) + [0x3A] + digits
  {
    assert (subs + [digits])[..|subs|] == subs;
  }

  function Texts(parameters: seq<seq<seq<byte>>>): (texts: seq<seq<byte>>)
    ensures |texts| == |parameters|
  {
    seq(|parameters|, i requires 0 <= i < |parameters| => SubText(parameters[i]))
  }

  function Received(introducer: byte, q: Sequence): seq<byte> {
    [ESC, introducer] + (q.marker + (Join(Texts(q.parameters)) + (q.intermediates + [q.final])))
  }

  /** The number the parser makes of digits: nothing counts as zero, and 16 bits are not exceeded. */
  function Value(digits: seq<byte>): u16 {
    var n := Number(digits); if n < 0 then 0 else if n < 0x1_0000 then n else 0xFFFF
  }

  function Values(subs: seq<seq<byte>>): (r: seq<u16>)
    ensures |r| == |subs|
  {
    seq(|subs|, i requires 0 <= i < |subs| => Value(subs[i]))
  }

  function HandedOver(parameters: seq<seq<seq<byte>>>): (r: Params)
    ensures |r| == |parameters|
  {
    seq(|parameters|, i requires 0 <= i < |parameters| => Values(parameters[i]))
  }

  /** What is printed of a received sequence: the parser collects a private marker first. */
  function Reprinted(introducer: byte, q: Sequence): seq<byte> {
    Printed(introducer, HandedOver(q.parameters), q.marker + q.intermediates, q.final as char)
  }

  /** Digits as a number is printed: some, none of them a leading zero, and within 16 bits. */
  predicate Canonical(digits: seq<byte>) {
    digits != [] && (|digits| == 1 || digits[0] != 0x30) && Number(digits) < 0x1_0000
  }

  lemma {:induction false} NumberSign(digits: seq<byte>)
    requires forall b :: b in digits ==> IsDigit(b)
    ensures Number(digits) >= 0
    ensures digits != [] && digits[0] != 0x30 ==> Number(digits) > 0
  {
    if digits != [] {
      NumberSign(digits[..|digits| - 1]);
      assert digits[|digits| - 1] in digits;
    }
  }

  lemma {:induction false} DecimalLeads(n: nat)
    ensures |Decimal(n)| == 1 || Decimal(n)[0] != 0x30
  {
    if n >= 10 {
      DecimalLeads(n / 10);
      DecimalDigits(n / 10);
      assert Decimal(n)[0] == Decimal(n / 10)[0];
    }
  }

  lemma {:induction false} DecimalOfNumber(digits: seq<byte>)
    requires digits != [] && (forall b :: b in digits ==> IsDigit(b)) && (|digits| == 1 || digits[0] != 0x30)
    ensures Number(digits) >= 0 && Decimal(Number(digits)) == digits
  {
    var k := |digits| - 1;
    assert digits[k] in digits && digits == digits[..k] + [digits[k]];
    NumberSign(digits);
    NumberSign(digits[..k]);
    if k > 0 {
      DecimalOfNumber(digits[..k]);
      assert Number(digits) / 10 == Number(digits[..k]) && Number(digits) % 10 == digits[k] - 0x30;
    } else {
      assert digits[..k] == [];
    }
  }

  lemma CanonicalExactly(digits: seq<byte>)
    requires forall b :: b in digits ==> IsDigit(b)
    ensures Decimal(Value(digits)) == digits <==> Canonical(digits)
  {
    NumberSign(digits);
    if Canonical(digits) {
      DecimalOfNumber(digits);
    }
    if Decimal(Value(digits)) == digits {
      DecimalLeads(Value(digits));
      DecimalDigits(Value(digits));
    }
  }

  lemma OneSub(digits: seq<byte>)
    ensures SubText([digits]) == digits && Field(Values([digits])) == Decimal(Value(digits))
  {
    assert Values([digits]) == [Value(digits)] && [Value(digits)][..0] == [];
    assert Field([Value(digits)]) == [] + Decimal(Value(digits));
  }

  lemma {:induction false} ColonShows(subs: seq<seq<byte>>)
    requires |subs| > 1
    ensures COLON in SubText(subs)
  {
  }

  /** A parameter is printed as received exactly when it has one sub-parameter, in canonical digits. */
  predicate PlainParameter(subs: seq<seq<byte>>) { |subs| == 1 && Canonical(subs[0]) }

  lemma PlainTexts(parameters: seq<seq<seq<byte>>>)
    requires forall subs :: subs in parameters ==> PlainParameter(subs) && AllDigits(subs)
    ensures Fields(HandedOver(parameters)) == Texts(parameters)
  {
    forall i | 0 <= i < |parameters| ensures Fields(HandedOver(parameters))[i] == Texts(parameters)[i] {
      var subs := parameters[i];
      assert subs in parameters && subs == [subs[0]] && subs[0] in subs;
      OneSub(subs[0]);
      CanonicalExactly(subs[0]);
    }
  }

  lemma SameText(parameters: seq<seq<seq<byte>>>, subs: seq<seq<byte>>)
    requires parameters != [] && forall subs :: subs in parameters ==> subs != [] && AllDigits(subs)
    requires Join(Fields(HandedOver(parameters))) == Join(Texts(parameters))
    requires subs in parameters
    ensures PlainParameter(subs)
  {
    var fields, texts := Fields(HandedOver(parameters)), Texts(parameters);
    HandedOverParts(parameters);
    PrintedFields(HandedOver(parameters));
    forall i | 0 <= i < |parameters| ensures |parameters[i]| == 1 && texts[i] == parameters[i][0] {
      assert parameters[i] in parameters;
      if |parameters[i]| > 1 {
        ColonShows(parameters[i]);
        JoinHolds(texts, i, COLON);
        assert false;
      }
    }
    forall f | f in texts ensures SEPARATOR !in f {
      var i :| 0 <= i < |texts| && texts[i] == f;
      assert parameters[i] in parameters && f in parameters[i];
    }
    JoinSplit(texts);
    FieldsOf(HandedOver(parameters));
    assert fields == texts;
    var i :| 0 <= i < |parameters| && parameters[i] == subs;
    assert subs == [subs[0]] && subs[0] in subs;
    OneSub(subs[0]);
    CanonicalExactly(subs[0]);
    assert fields[i] == Field(Values(subs)) && texts[i] == SubText(subs);
  }

  lemma HandedOverParts(parameters: seq<seq<seq<byte>>>)
    requires parameters != [] && forall subs :: subs in parameters ==> subs != []
    ensures forall i :: 0 <= i < |parameters| ==> HandedOver(parameters)[i] != []
    ensures var text := Join(Fields(HandedOver(parameters)));
            text != [] && IsParameterByte(text[0])
  {
    var params := HandedOver(parameters);
    forall i | 0 <= i < |params| ensures params[i] != [] {
      assert parameters[i] in parameters;
    }
    PrintedFields(params);
    FieldsOf(params);
    assert Fields(params)[0] in Fields(params);
    JoinHolds(Fields(params), 0, Fields(params)[0][0]);
  }

  /** A received sequence is printed as received if and only if it has no private marker and each of
      its parameters is one number, neither left out nor with leading zeros nor beyond 16 bits. */
  lemma ReprintedExactly(introducer: byte, q: Sequence)
    requires Receivable(q)
    ensures Reprinted(introducer, q) == Received(introducer, q)
       <==> q.marker == [] && forall subs :: subs in q.parameters ==> PlainParameter(subs)
  {
    if q.marker != [] {
      MarkerDiffers(introducer, q);
    } else {
      Unmarked(introducer, q);
      if Join(Fields(HandedOver(q.parameters))) == Join(Texts(q.parameters)) {
        forall subs | subs in q.parameters ensures PlainParameter(subs) {
          SameText(q.parameters, subs);
        }
      }
      if forall subs :: subs in q.parameters ==> PlainParameter(subs) {
        PlainTexts(q.parameters);
      }
    }
  }

  lemma MarkerDiffers(introducer: byte, q: Sequence)
    requires Receivable(q) && q.marker != []
    ensures Reprinted(introducer, q) != Received(introducer, q)
  {
    HandedOverParts(q.parameters);
    assert q.marker[0] in q.marker;
    assert Reprinted(introducer, q)[2] == Join(Fields(HandedOver(q.parameters)))[0];
    assert Received(introducer, q)[2] == q.marker[0];
  }

  lemma Unmarked(introducer: byte, q: Sequence)
    requires q.marker == []
    ensures Reprinted(introducer, q) == Received(introducer, q)
       <==> Join(Fields(HandedOver(q.parameters))) == Join(Texts(q.parameters))
  {
    var printed, text := Join(Fields(HandedOver(q.parameters))), Join(Texts(q.parameters));
    var tail := q.intermediates + [q.final];
    assert [] + q.intermediates == q.intermediates && [] + (text + tail) == text + tail;
    assert Reprinted(introducer, q)[2..] == printed + tail && Received(introducer, q)[2..] == text + tail;
    if printed + tail == text + tail {
      SameSuffix(printed, text, tail);
    }
  }

  lemma SameSuffix(a: seq<byte>, b: seq<byte>, tail: seq<byte>)
    requires a + tail == b + tail
    ensures a == b
  {
    assert |a| == |b| && a == (a + tail)[..|a|] && b == (b + tail)[..|b|];
  }

  /** A private marker moves behind the parameters. */
  lemma MarkerMoves(introducer: byte, q: Sequence)
    requires Receivable(q) && forall subs :: subs in q.parameters ==> PlainParameter(subs)
    ensures Reprinted(introducer, q)
         == [ESC, introducer] + (Join(Texts(q.parameters)) + (q.marker + (q.intermediates + [q.final])))
  {
    PlainTexts(q.parameters);
    assert q.marker + q.intermediates + [q.final] == q.marker + (q.intermediates + [q.final]);
  }

  /** `ESC [ ? 25 h`, which shows the cursor, is printed as `ESC [ 25 ? h`. */
  lemma ShowCursor()
    ensures var q := Sequence([0x3F], [[[0x32, 0x35]]], [], 0x68);
            && Received(CSI, q) == [ESC, CSI, 0x3F, 0x32, 0x35, 0x68]
            && Reprinted(CSI, q) == [ESC, CSI, 0x32, 0x35, 0x3F, 0x68]
  {
    var digits: seq<byte> := [0x32, 0x35];
    var q := Sequence([0x3F], [[digits]], [], 0x68);
    assert digits[..1] == [0x32] && digits[..1][..0] == [];
    assert Number(digits[..1]) == 10 * Number([]) + 2;
    assert Number(digits) == 25;
    assert PlainParameter([digits]) && AllDigits([digits]);
    assert Texts(q.parameters) == [SubText([digits])] == [digits];
    MarkerMoves(CSI, q);
  }

  /** Every printed sequence starts with ESC and its introducer, `[` for a control sequence and `P` for a
      device control string, and ends in the low eight bits of its final character. */
  lemma Frame(params: Params, intermediates: seq<byte>, command: char)
    ensures var (c, d) := (Printed(CSI, params, intermediates, command), Printed(DCS, params, intermediates, command));
            && c[..2] == [0x1B, 0x5B] && d[..2] == [0x1B, 0x50] && c[2..] == d[2..]
            && |c| >= 3 + |intermediates| && c[|c| - 1] == command as int % 256
            && c[|c| - 1 - |intermediates|..|c| - 1] == intermediates
  {
  }

  /** `ESC [ 38 ; 5 ; 201 m` and `ESC P 1 $ q`, byte by byte. */
  lemma PrintedBytes()
    ensures Printed(CSI, [[38], [5], [201]], [], 'm')
         == [0x1B, 0x5B, 0x33, 0x38, 0x3B, 0x35, 0x3B, 0x32, 0x30, 0x31, 0x6D]
    ensures Printed(DCS, [[1]], [0x24], 'q') == [0x1B, 0x50, 0x31, 0x24, 0x71]
  {
    SingleField(38);
    SingleField(5);
    SingleField(201);
    SingleField(1);
    assert Decimal(38) == [0x33, 0x38];
    assert Decimal(20) == [0x32, 0x30] && 201 / 10 == 20;
    assert Decimal(201) == [0x32, 0x30, 0x31];
    var three := Fields([[38], [5], [201]]);
    assert three == [Decimal(38), Decimal(5), Decimal(201)];
    assert three[..2] == [Decimal(38), Decimal(5)] && three[..2][..1] == [Decimal(38)];
    assert Join(three) == Decimal(38) + [SEPARATOR] + Decimal(5) + [SEPARATOR] + Decimal(201);
    assert Fields([[1]]) == [Decimal(1)];
  }

  lemma SingleField(n: u16)
    ensures Field([n]) == Decimal(n)
  {
    assert [n][..0] == [] && [] + Decimal(n) == Decimal(n);
  }

  // ----- the performer --------------------------------------------------------------------------

  class AnsiParser {
    /** What the output handler has received. */
    var output: seq<byte>

    constructor ()
      ensures output == []
    {
      output := [];
    }

    method HandleOutput(data: seq<byte>)
      modifies this
      ensures output == old(output) + data
    {
      output := output + data;
    }

    method CsiDispatch(params: Params, intermediates: seq<byte>, command: char)
      modifies this
      ensures output == old(output) + Printed(CSI, params, intermediates, command)
    {
      var parameters := PrintParams(params);
      var sequence := [ESC, CSI] + parameters;
      if intermediates != [] {
        sequence := sequence + intermediates;
      }
      sequence := sequence + [LowByte(command)];
      HandleOutput(sequence);
    }

    method Hook(params: Params, intermediates: seq<byte>, command: char)
      modifies this
      ensures output == old(output) + Printed(DCS, params, intermediates, command)
    {
      var parameters := PrintParams(params);
      var sequence := [ESC, DCS] + parameters;
      if intermediates != [] {
        sequence := sequence + intermediates;
      }
      sequence := sequence + [LowByte(command)];
      HandleOutput(sequence);
    }

    method Unhook()
      modifies this
      ensures output == old(output) + [ESC, 0x5C]
    {
      HandleOutput([ESC, 0x5C]);
    }
  }

  /** The two nested loops over parameters and sub-parameters. */
  method PrintParams(params: Params) returns (sequence: seq<byte>)
    ensures sequence == Join(Fields(params))
  {
    sequence := [];
    for i := 0 to |params|
      invariant sequence == Join(Fields(params)[..i])
    {
      ghost var before := sequence;
      if i > 0 {
        sequence := sequence + [SEPARATOR];
      }
      ghost var start := sequence;
      for k := 0 to |params[i]|
        invariant sequence == start + Field(params[i][..k])
      {
        sequence := sequence + Decimal(params[i][k]);
        assert params[i][..k + 1][..k] == params[i][..k];
      }
      assert params[i][..|params[i]|] == params[i];
      assert Fields(params)[..i + 1][..i] == Fields(params)[..i];
    }
    assert Fields(params)[..|params|] == Fields(params);
  }
}
