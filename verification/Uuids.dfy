/** What both RPC formats share: UUIDs in mixed-endian byte order, and the data representation label. */
module Uuids {
  import opened Bytes

  /** A UUID, by its sixteen bytes in network order. */
  type Uuid = s: seq<u8> | |s| == 16 witness seq(16, _ => 0)

  /** The data representation label of a PDU header. */
  type Drep = s: seq<u8> | |s| == 4 witness LITTLE_ENDIAN_DREP

  const LITTLE_ENDIAN_DREP: seq<u8> := [0x10, 0, 0, 0]

  /** The first three fields of a UUID are little-endian on the wire; the way back is the same. */
  function UuidLe(u: Uuid): Uuid {
    [u[3], u[2], u[1], u[0], u[5], u[4], u[7], u[6]] + u[8..]
  }

  /** The wire bytes `w` hold, as one field of four bytes and two of two, what those of `u` spell high byte first. */
  predicate OnWire(w: seq<u8>, u: Uuid) {
    && |w| == 16
    && U32At(w, 0) == Four(u[3], u[2], u[1], u[0])
    && U16At(w, 4) == Four(u[5], u[4], 0, 0) && U16At(w, 6) == Four(u[7], u[6], 0, 0)
    && w[8..] == u[8..]
  }

  lemma UuidOnWire(w: seq<u8>, u: Uuid)
    ensures OnWire(w, u) <==> w == UuidLe(u)
  {
    if |w| == 16 {
      FieldValues(w, 0);
      FieldValues(w, 4);
      FieldValues(w, 6);
      SameFour(w[0], w[1], w[2], w[3], u[3], u[2], u[1], u[0]);
      SameFour(w[4], w[5], 0, 0, u[5], u[4], 0, 0);
      SameFour(w[6], w[7], 0, 0, u[7], u[6], 0, 0);
      assert w == [w[0], w[1], w[2], w[3], w[4], w[5], w[6], w[7]] + w[8..];
    }
  }

  lemma UuidLeTwice(u: Uuid)
    ensures UuidLe(UuidLe(u)) == u
  {
    assert u == [u[0], u[1], u[2], u[3], u[4], u[5], u[6], u[7]] + u[8..];
    assert UuidLe(u)[8..] == u[8..];
  }
}
