/** The received-ID set of src/bit_field.c: one bit for each 16-bit ID. */
module BitFields {
  import opened Payloads

  const BITS: nat := 8
  const SIZE: nat := 8192

  /** Bit `offset` of a byte. */
  function Bit(b: bv8, offset: nat): bool
    requires offset < 8
  {
    (b >> offset as bv4) & 1 == 1
  }

  /** Setting a bit sets that one and no other. */
  lemma SetBit(b: bv8, offset: nat, other: nat)
    requires offset < 8 && other < 8
    ensures Bit(b | (1 << offset as bv4), other) <==> offset == other || Bit(b, other)
  {
  }

  class BitField {
    const data: array<bv8>

    ghost predicate Valid()
      reads this
    {
      data.Length == SIZE
    }

    ghost predicate Has(id: MessageId)
      reads this, data
      requires Valid()
    {
      Bit(data[id / BITS], id % BITS)
    }

    /** The IDs whose bit is set. */
    ghost function Ids(): (s: set<MessageId>)
      reads this, data
      requires Valid()
    {
      set id: MessageId | 0 <= id < 0x1_0000 && Has(id)
    }

    /** A new field is taken to be zeroed. */
    constructor ()
      ensures Valid() && fresh(data) && Ids() == {}
    {
      data := new bv8[SIZE](_ => 0);
    }

    method Insert(id: MessageId)
      requires Valid()
      modifies data
      ensures Valid() && Ids() == old(Ids()) + {id}
    {
      var index := id / BITS;
      var offset := id % BITS;
      ghost var before := data[..];
      data[index] := data[index] | (1 << offset as bv4);
      forall other: MessageId
        ensures Has(other) <==> other == id || old(Has(other))
      {
        SetBit(before[index], offset, other % BITS);
      }
    }

    method Contains(id: MessageId) returns (r: bool)
      requires Valid()
      ensures r <==> id in Ids()
    {
      var index := id / BITS;
      var offset := id % BITS;
      r := (data[index] >> offset as bv4) & 1 == 1;
    }
  }
}
