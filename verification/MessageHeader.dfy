/** The bit-packed header words of messages and message pieces. */
module MessageHeader {
  import opened Bits

  // ---------- message headers: source 7 | dest 7 | worker 8 | count 15 | length 27 ----------

  /** The header word and the marker. */
  const PREFIX_SIZE: nat := 12

  function MessageLength(header: nat): nat {
    GetField(header, 0, 27)
  }

  function MessageCount(header: nat): nat {
    GetField(header, 27, 15)
  }

  function WorkerId(header: nat): nat {
    GetField(header, 42, 8)
  }

  function DestNodeId(header: nat): nat {
    GetField(header, 50, 7)
  }

  function SourceNodeId(header: nat): nat {
    GetField(header, 57, 7)
  }

  function WithLength(header: nat, length: nat): nat {
    SetField(header, 0, 27, length)
  }

  function WithCount(header: nat, count: nat): nat {
    SetField(header, 27, 15, count)
  }

  /** What `flush` does to the header when the message is `size` bytes long. */
  function Flushed(header: nat, size: nat): nat {
    WithLength(WithCount(header, MessageCount(header) + 1), size)
  }

  /** A flush counts one more piece and stores the size; the ids stay. It does so exactly while the
      new count needs no more than 15 bits. */
  lemma {:induction false} FlushCounts(header: nat, size: nat)
    requires Fits(27, size)
    ensures MessageLength(Flushed(header, size)) == size
    ensures MessageCount(Flushed(header, size)) == Low(15, MessageCount(header) + 1)
    ensures MessageCount(Flushed(header, size)) == MessageCount(header) + 1 <==> Fits(15, MessageCount(header) + 1)
    ensures Fits(15, MessageCount(header) + 1) ==>
              && WorkerId(Flushed(header, size)) == WorkerId(header)
              && DestNodeId(Flushed(header, size)) == DestNodeId(header)
              && SourceNodeId(Flushed(header, size)) == SourceNodeId(header)
  {
    hide SetField, GetField;
    var count := MessageCount(header) + 1;
    var h1 := WithCount(header, count);
    SetThenGet(header, 27, 15, count);
    SetThenGet(h1, 0, 27, size);
    SetKeepsOthers(h1, 0, 27, size, 27, 15);
    SetKeepsOthers(h1, 0, 27, size, 42, 8);
    SetKeepsOthers(h1, 0, 27, size, 50, 7);
    SetKeepsOthers(h1, 0, 27, size, 57, 7);
    if Fits(15, count) {
      SetKeepsOthers(header, 27, 15, count, 42, 8);
      SetKeepsOthers(header, 27, 15, count, 50, 7);
      SetKeepsOthers(header, 27, 15, count, 57, 7);
    }
  }

  // ---------- piece headers: type 7 | length 12 | table 5 | partition 8 ----------

  /** The sum of the shifted fields, cut to 32 bits. */
  function PieceHeader(kind: nat, length: nat, table: nat, partition: nat): nat {
    Low(32, Shl(25, kind) + Shl(13, length) + Shl(8, table) + partition)
  }

  function PieceType(header: nat): nat {
    GetField(header, 25, 7)
  }

  function PieceLength(header: nat): nat {
    GetField(header, 13, 12)
  }

  function PieceTable(header: nat): nat {
    GetField(header, 8, 5)
  }

  function PiecePartition(header: nat): nat {
    GetField(header, 0, 8)
  }

  /** The sum of the fields as one joined word: the length's bits above its field are added to the type. */
  lemma {:induction false} PieceSum(kind: nat, length: nat, table: nat, partition: nat)
    requires Fits(5, table) && Fits(8, partition)
    ensures Shl(25, kind) + Shl(13, length) + Shl(8, table) + partition
         == Join(8, partition, Join(5, table, Join(12, length, Shr(12, length) + kind)))
  {
    var top := Join(12, length, Shr(12, length) + kind);
    ShlShl(13, 12, kind);
    AddJoin(12, length, kind);
    ShlAdd(13, length, Shl(12, kind));
    ShlShl(8, 5, top);
    AddJoin(5, table, top);
    ShlAdd(8, table, Shl(5, top));
    AddJoin(8, partition, Join(5, table, top));
  }

  /** What a piece header says when read back: the length modulo 4096, whatever exceeds that added to
      the type. */
  lemma {:induction false} PieceHeaderReads(kind: nat, length: nat, table: nat, partition: nat)
    requires Fits(5, table) && Fits(8, partition)
    ensures var h := PieceHeader(kind, length, table, partition);
            && PieceLength(h) == Low(12, length) && PieceType(h) == Low(7, Shr(12, length) + kind)
            && PieceTable(h) == table && PiecePartition(h) == partition
  {
    hide Low, Shr, Join, Shl;
    var w := Shl(25, kind) + Shl(13, length) + Shl(8, table) + partition;
    ShrNone(w);
    var x1 := Shr(12, length) + kind;
    var x2 := Join(12, length, x1);
    var x3 := Join(5, table, x2);
    PieceSum(kind, length, table, partition);
    PartsOfJoin(8, partition, x3);
    PartsOfJoin(5, table, x2);
    PartsOfJoin(12, length, x1);
    ShrShr(8, 5, w);
    ShrShr(13, 12, w);
    LowIsAll(5, table);
    LowIsAll(8, partition);
    FieldOfLow(w, 32, 25, 7);
    FieldOfLow(w, 32, 13, 12);
    FieldOfLow(w, 32, 8, 5);
    FieldOfLow(w, 32, 0, 8);
  }

  /** So length and type both come back exactly when the length is below 4096 and the type below 128. */
  lemma {:induction false} PieceHeaderIsFaithful(kind: nat, length: nat, table: nat, partition: nat)
    requires Fits(5, table) && Fits(8, partition) && Fits(7, kind)
    ensures PieceLength(PieceHeader(kind, length, table, partition)) == length <==> Fits(12, length)
    ensures Fits(12, length) ==> PieceType(PieceHeader(kind, length, table, partition)) == kind
  {
    PieceHeaderReads(kind, length, table, partition);
    LowIsAll(12, length);
    LowIsAll(7, kind);
  }
}
