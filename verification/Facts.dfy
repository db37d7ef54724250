/** Facts: bi-temporal (entity, attribute, value) triples with transaction metadata. */
module Facts {
  import opened Bytes

  type u64 = n: int | 0 <= n < 0x1_0000_0000_0000_0000
  type i64 = n: int | -0x8000_0000_0000_0000 <= n < 0x8000_0000_0000_0000

  const ENTITY_SPACE := 0x1_0000_0000_0000_0000_0000_0000_0000_0000

  /** A UUID as the number its 16 big-endian bytes stand for; UUID order is number order. */
  type EntityId = n: int | 0 <= n < ENTITY_SPACE

  /** UTF-8 bytes: string order is byte order. */
  type Text = seq<byte>

  /** Floats are their IEEE 754 bits. */
  datatype Value =
    | Null
    | Boolean(b: bool)
    | Integer(n: i64)
    | Float(bits: u64)
    | Str(s: Text)
    | Keyword(k: Text)
    | Ref(id: EntityId)

  datatype Fact = Fact(entity: EntityId, attribute: Text, value: Value, txId: u64, txCount: u64,
                       validFrom: i64, validTo: i64, asserted: bool)

  /** postcard for facts: decoding undoes encoding, and no fact encodes to nothing. */
  datatype FactCodec = FactCodec(enc: Fact -> seq<byte>, dec: seq<byte> -> Option<Fact>)
  {
    ghost predicate Valid() {
      forall f :: dec(enc(f)) == Some(f) && enc(f) != []
    }
  }
}
