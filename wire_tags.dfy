/**
 * Wire types and field keys (`TypeModel.GetWireTypeByType`, `TypeModel.MakeTag`).
 * The key of a field is `(field_number << 3) | wire_type`, as in the
 * "Message Structure" section of the Protocol Buffers encoding guide,
 * computed here as the source computes it: a 32-bit `int` shift that
 * wraps, reinterpreted as `uint`, or-ed with the wire type code and
 * printed in decimal.
 */
module WireTags {
  import opened Strings
  import opened Descriptors

  /** The `WireType` values the generator produces. */
  datatype WireType = Varint | Fixed64 | String | Fixed32

  /** The numeric code of a wire type. */
  function WireTypeCode(w: WireType): (c: nat)
    ensures c < 8
  {
    match w
    case Varint => 0
    case Fixed64 => 1
    case String => 2
    case Fixed32 => 5
  }

  /**
   * `GetWireTypeByType`: length-delimited, 4-byte and 8-byte types get their
   * wire type; every other type, groups included, falls through to Varint.
   */
  function GetWireTypeByType(t: FieldType): (w: WireType)
    ensures w == String <==> t in {TypeMessage, TypeBytes, TypeString}
    ensures w == Fixed32 <==> t in {TypeFloat, TypeFixed32, TypeSfixed32}
    ensures w == Fixed64 <==> t in {TypeDouble, TypeFixed64, TypeSfixed64}
    ensures w == Varint <==> t !in {TypeMessage, TypeBytes, TypeString, TypeFloat, TypeFixed32,
                                    TypeSfixed32, TypeDouble, TypeFixed64, TypeSfixed64}
  {
    match t
    case TypeMessage | TypeBytes | TypeString => String
    case TypeFloat | TypeFixed32 | TypeSfixed32 => Fixed32
    case TypeDouble | TypeFixed64 | TypeSfixed64 => Fixed64
    case _ => Varint
  }

  /**
   * The wire type `MakeTag` puts in the key: a repeated field is
   * length-delimited when packed and keeps its element wire type when not;
   * `pack` plays no part for any other field.
   */
  function FieldWireType(f: Field, pack: bool): (w: WireType)
    ensures f.fieldLabel != LabelRepeated ==> w == GetWireTypeByType(f.fieldType)
    ensures f.fieldLabel == LabelRepeated ==> w == if pack then String else GetWireTypeByType(f.fieldType)
  {
    if f.fieldLabel == LabelRepeated then
      var element := GetWireTypeByType(f.fieldType);
      match element
      case String => element
      case _ => if pack then String else element
    else
      GetWireTypeByType(f.fieldType)
  }

  /** Bitwise or of two non-negative integers (C#'s `|` on `uint`). */
  function BitOr(a: nat, b: nat): nat
    decreases a + b
  {
    if a == 0 then b
    else if b == 0 then a
    else 2 * BitOr(a / 2, b / 2) + (if a % 2 == 1 || b % 2 == 1 then 1 else 0)
  }

  /** Or-ing a value below 8 into a multiple of 8 fills its three low bits. */
  lemma {:induction false} BitOrLowBits(k: nat, w: nat)
    requires w < 8
    ensures BitOr(8 * k, w) == 8 * k + w
  {
    if k != 0 && w != 0 {
      assert (8 * k) / 2 == 4 * k && (4 * k) / 2 == 2 * k && (2 * k) / 2 == k;
      assert (8 * k) % 2 == 0 && (4 * k) % 2 == 0 && (2 * k) % 2 == 0;
      var w1, w2 := w / 2, w / 4;
      assert BitOr(2 * k, w2) == 2 * k + w2 % 2 by {
        if w2 != 0 { assert BitOr(k, w2 / 2) == k; }
      }
      assert BitOr(4 * k, w1) == 4 * k + w1 % 4 by {
        if w1 != 0 { assert w1 / 2 == w2; }
      }
    }
  }

  /** The field number shifted left by three bits in 32 bits: the shift wraps and the result is read as unsigned. */
  function ShiftedNumber(n: Int32): nat {
    (n * 8) % 0x1_0000_0000
  }

  /** The shifted number keeps the low 29 bits of the field number, times 8. */
  lemma ShiftedNumberLowBits(n: Int32)
    ensures ShiftedNumber(n) == 8 * (n % 0x2000_0000)
  {
    var a, r := n / 0x2000_0000, n % 0x2000_0000;
    assert n == a * 0x2000_0000 + r;
    assert n * 8 == a * 0x1_0000_0000 + 8 * r;
    assert 0 <= 8 * r < 0x1_0000_0000;
  }

  /** The key: the shifted field number combined by bitwise or with the wire type code. */
  function TagValue(n: Int32, w: WireType): (v: nat)
    ensures v < 0x1_0000_0000
    ensures v == (n * 8) % 0x1_0000_0000 + WireTypeCode(w)
  {
    var shifted := ShiftedNumber(n);
    ShiftedNumberLowBits(n);
    BitOrLowBits(n % 0x2000_0000, WireTypeCode(w));
    BitOr(shifted, WireTypeCode(w))
  }

  /**
   * For a field number that fits in 29 bits the key splits back into the
   * field number (`tag >> 3`) and the wire type (`tag & 7`).
   */
  lemma TagSplits(n: Int32, w: WireType)
    requires 0 <= n < 0x2000_0000
    ensures TagValue(n, w) == n * 8 + WireTypeCode(w)
    ensures TagValue(n, w) / 8 == n
    ensures TagValue(n, w) % 8 == WireTypeCode(w)
  {
  }

  /** `MakeTag(proto, pack)`: the key, printed in decimal. */
  function MakeTag(f: Field, pack: bool): (r: string)
    ensures |r| > 0 && AllDigits(r)
    ensures |r| > 1 ==> r[0] != '0'
    ensures DecimalValue(r) == TagValue(f.number, FieldWireType(f, pack))
  {
    DecimalRoundTrip(TagValue(f.number, FieldWireType(f, pack)));
    NatToDecimal(TagValue(f.number, FieldWireType(f, pack)))
  }

  /** `pack` has no effect on a field that is not repeated. */
  lemma PackIgnoredUnlessRepeated(f: Field)
    requires f.fieldLabel != LabelRepeated
    ensures MakeTag(f, true) == MakeTag(f, false)
  {
  }

  /** `pack` has no effect on a repeated length-delimited field. */
  lemma PackIgnoredForLengthDelimited(f: Field)
    requires GetWireTypeByType(f.fieldType) == String
    ensures MakeTag(f, true) == MakeTag(f, false)
  {
  }

  /** Field 1 of type string and field 2 packed repeated int32 get keys 10 and 18. */
  lemma TagExamples()
    ensures MakeTag(Field("s", 1, LabelOptional, TypeString, "", Wrappers.None), true) == "10"
    ensures MakeTag(Field("v", 2, LabelRepeated, TypeInt32, "", Wrappers.None), true) == "18"
    ensures MakeTag(Field("v", 2, LabelRepeated, TypeInt32, "", Wrappers.None), false) == "16"
  {
    var s := Field("s", 1, LabelOptional, TypeString, "", Wrappers.None);
    var v := Field("v", 2, LabelRepeated, TypeInt32, "", Wrappers.None);
    assert FieldWireType(s, true) == String && FieldWireType(v, true) == String && FieldWireType(v, false) == Varint;
    TagSplits(1, String);
    TagSplits(2, String);
    TagSplits(2, Varint);
    assert TagValue(1, String) == 10 && TagValue(2, String) == 18 && TagValue(2, Varint) == 16;
    DecimalExamples();
  }
}
