/** Messages made of pieces, and the piece that carries a routed transaction. */
module RouterCodec {
  import opened Bits
  import opened Bytes
  import opened MessageHeader

  const PIECE_HEADER_SIZE: nat := 4
  const ROUTER_TRANSACTION_REQUEST: nat := 6

  /** A piece as the iterator finds it: its header holds its own length. */
  ghost predicate WellCut(piece: seq<byte>) {
    PIECE_HEADER_SIZE <= |piece| && PieceLength(Value(piece[..PIECE_HEADER_SIZE])) == |piece|
  }

  /** A message: the header word, and the data behind the 12-byte prefix. */
  class WireMessage {
    var header: nat
    var body: seq<byte>
    ghost var pieces: seq<seq<byte>>

    /** The data are the pieces appended so far, and the header counts them modulo 2^15. */
    ghost predicate Valid()
      reads this
    {
      && body == Flatten(pieces)
      && MessageCount(header) == Low(15, |pieces|)
      && MessageLength(header) == PREFIX_SIZE + |body|
    }

    constructor ()
      ensures Valid() && pieces == []
    {
      header, body, pieces := WithLength(0, PREFIX_SIZE), [], [];
      new;
      EmptyHeader();
    }

    /** Appends to the data, as an encoder bound to the message does. */
    method Append(bytes: seq<byte>)
      modifies `body
      ensures body == old(body) + bytes
    {
      body := body + bytes;
    }

    /** Ends a piece: one more is counted, and the header gets the length of the data. */
    method Flush(ghost piece: seq<byte>)
      requires body == Flatten(pieces) + piece && MessageCount(header) == Low(15, |pieces|)
      requires Fits(27, PREFIX_SIZE + |body|)
      modifies `header, `pieces
      ensures Valid() && pieces == old(pieces) + [piece]
    {
      hide SetField, GetField, Low, Fits, Flatten;
      FlushCounts(header, PREFIX_SIZE + |body|);
      LowSucc(15, |pieces|);
      FlattenAppend(pieces, piece);
      header := WithCount(header, MessageCount(header) + 1);
      header := WithLength(header, PREFIX_SIZE + |body|);
      pieces := pieces + [piece];
    }

    /** The iterator from begin to end. */
    method ReadPieces() returns (found: seq<seq<byte>>)
      requires Valid() && forall i :: 0 <= i < |pieces| ==> WellCut(pieces[i])
      ensures found == pieces
      ensures MessageCount(header) == |found| <==> Fits(15, |found|)
    {
      found := [];
      var rest := body;
      assert pieces[0..] == pieces;
      while rest != []
        invariant |found| <= |pieces| && found == pieces[..|found|] && rest == Flatten(pieces[|found|..])
        decreases |rest|
      {
        FlattenFront(pieces, |found|);
        assert rest[..PIECE_HEADER_SIZE] == pieces[|found|][..PIECE_HEADER_SIZE];
        var length := PieceLength(Value(rest[..PIECE_HEADER_SIZE]));
        found, rest := found + [rest[..length]], rest[length..];
      }
      AllRead(pieces, |found|);
      LowIsAll(15, |pieces|);
    }
  }

  lemma {:induction false} EmptyHeader()
    ensures MessageCount(WithLength(0, PREFIX_SIZE)) == Low(15, 0)
    ensures MessageLength(WithLength(0, PREFIX_SIZE)) == PREFIX_SIZE
  {
    hide SetField, Low, Shr;
    SetThenGet(0, 0, 27, PREFIX_SIZE);
    PrefixFits();
    SetKeepsOthers(0, 0, 27, PREFIX_SIZE, 27, 15);
    ZeroBits(27);
    ZeroBits(15);
  }

  lemma {:induction false} PrefixFits()
    ensures Fits(27, PREFIX_SIZE)
  {
    ShrShr(4, 23, PREFIX_SIZE);
    ZeroBits(23);
  }

  lemma {:induction false} ZeroBits(k: nat)
    ensures Shr(k, 0) == 0 && Low(k, 0) == 0
  {
    if k > 0 {
      ZeroBits(k - 1);
    }
  }

  lemma {:induction false} AllRead(pieces: seq<seq<byte>>, n: nat)
    requires n <= |pieces| && Flatten(pieces[n..]) == [] && forall i :: 0 <= i < |pieces| ==> |pieces[i]| > 0
    ensures n == |pieces|
  {
    if n < |pieces| {
      FlattenFront(pieces, n);
    }
  }

  // ---------- routed transactions ----------

  datatype RouterTxn = RouterTxn(
    op: nat, isDistributed: bool, isRealDistributed: bool, isTransmitRequest: bool,
    idx: nat, globalId: int, onReplicaId: int, destination: nat, keys: seq<nat>, update: seq<bool>)

  /** The ranges of the source's integer types. */
  ghost predicate InRange(t: RouterTxn) {
    && t.op < 4 && t.idx < Power(8) && t.destination < Power(8)
    && -0x8000_0000 <= t.globalId < 0x8000_0000 && -0x8000_0000 <= t.onReplicaId < 0x8000_0000
    && |t.keys| == |t.update| && forall i :: 0 <= i < |t.keys| ==> t.keys[i] < Power(8)
  }

  function MessageSize(t: RouterTxn): nat {
    64 + 9 * |t.keys|
  }

  function FixedParts(t: RouterTxn, table: nat): (parts: seq<seq<byte>>)
    ensures |parts| == 10
  {
    [Encode(PieceHeader(ROUTER_TRANSACTION_REQUEST, MessageSize(t), table, 0), 4),
     Encode(t.op, 4),
     Encode(Flag(t.isDistributed), 8),
     Encode(Flag(t.isRealDistributed), 8),
     Encode(Flag(t.isTransmitRequest), 8),
     Encode(t.idx, 8),
     Signed(t.globalId, 8),
     Signed(t.onReplicaId, 4),
     Encode(t.destination, 4),
     Encode(|t.keys|, 8)]
  }

  function KeyPart(t: RouterTxn, k: nat): seq<byte>
    requires |t.keys| == |t.update| && k < 2 * |t.keys|
  {
    if k % 2 == 0 then Encode(t.keys[k / 2], 8) else [Flag(t.update[k / 2])]
  }

  function Parts(t: RouterTxn, table: nat): (parts: seq<seq<byte>>)
    requires |t.keys| == |t.update|
    ensures |parts| == 10 + 2 * |t.keys| && parts[..10] == FixedParts(t, table)
    ensures forall k :: 0 <= k < 2 * |t.keys| ==> parts[10 + k] == KeyPart(t, k)
  {
    FixedParts(t, table) + seq(2 * |t.keys|, k requires 0 <= k < 2 * |t.keys| => KeyPart(t, k))
  }

  function Piece(t: RouterTxn, table: nat): seq<byte>
    requires |t.keys| == |t.update|
  {
    Flatten(Parts(t, table))
  }

  /** The loop that appends each key with its update flag. */
  method AppendKeys(message: WireMessage, table: nat, t: RouterTxn)
    requires |t.keys| == |t.update|
    modifies message`body
    ensures message.body == old(message.body) + Flatten(Parts(t, table)[10..])
    ensures |message.body| == |old(message.body)| + 9 * |t.keys|
  {
    hide Encode, Flatten, Parts;
    ghost var parts := Parts(t, table)[10..];
    var i := 0;
    NoParts(parts);
    while i < |t.keys|
      invariant 0 <= i <= |t.keys| && message.body == old(message.body) + Flatten(parts[..2 * i])
      invariant |message.body| == |old(message.body)| + 9 * i
    {
      KeyRound(t, table, i);
      message.Append(Encode(t.keys[i], 8));
      message.Append([Flag(t.update[i])]);
      i := i + 1;
    }
    assert parts[..2 * i] == parts;
  }

  lemma {:induction false} KeyRound(t: RouterTxn, table: nat, i: nat)
    requires |t.keys| == |t.update| && i < |t.keys|
    ensures var parts := Parts(t, table)[10..];
            Flatten(parts[..2 * (i + 1)]) == Flatten(parts[..2 * i]) + Encode(t.keys[i], 8) + [Flag(t.update[i])]
  {
    hide Encode, Flatten;
    var parts := Parts(t, table)[10..];
    FlattenBack(parts, 2 * i);
    FlattenBack(parts, 2 * i + 1);
    assert parts[2 * i] == KeyPart(t, 2 * i) && parts[2 * i + 1] == KeyPart(t, 2 * i + 1);
  }

  /** `new_router_transaction_message`: the fixed fields and then the keys are appended, and the
      message is flushed. */
  method NewRouterTransactionMessage(message: WireMessage, table: nat, t: RouterTxn) returns (size: nat)
    requires message.Valid() && |t.keys| == |t.update| && Fits(27, PREFIX_SIZE + |message.body| + MessageSize(t))
    modifies message
    ensures message.Valid() && message.pieces == old(message.pieces) + [Piece(t, table)]
    ensures size == MessageSize(t) == |Piece(t, table)|
  {
    hide Encode, Flatten, Signed, PieceHeader, Parts, FixedParts;
    size := MessageSize(t);
    var header := PieceHeader(ROUTER_TRANSACTION_REQUEST, size, table, 0);
    message.Append(Encode(header, 4) + Encode(t.op, 4)
                   + Encode(Flag(t.isDistributed), 8) + Encode(Flag(t.isRealDistributed), 8)
                   + Encode(Flag(t.isTransmitRequest), 8) + Encode(t.idx, 8)
                   + Signed(t.globalId, 8) + Signed(t.onReplicaId, 4)
                   + Encode(t.destination, 4) + Encode(|t.keys|, 8));
    FixedFlatten(t, table);
    AppendKeys(message, table, t);
    FlattenSplit(Parts(t, table), 10);
    message.Flush(Piece(t, table));
  }

  lemma {:induction false} FixedFlatten(t: RouterTxn, table: nat)
    requires |t.keys| == |t.update|
    ensures |Flatten(Parts(t, table)[..10])| == 64
    ensures Flatten(Parts(t, table)[..10]) ==
              Encode(PieceHeader(ROUTER_TRANSACTION_REQUEST, MessageSize(t), table, 0), 4) + Encode(t.op, 4)
              + Encode(Flag(t.isDistributed), 8) + Encode(Flag(t.isRealDistributed), 8)
              + Encode(Flag(t.isTransmitRequest), 8) + Encode(t.idx, 8)
              + Signed(t.globalId, 8) + Signed(t.onReplicaId, 4)
              + Encode(t.destination, 4) + Encode(|t.keys|, 8)
  {
    hide Encode, PieceHeader, Signed;
    var p := FixedParts(t, table);
    assert p[..0] == [];
    FlattenBack(p, 0);
    FlattenBack(p, 1);
    FlattenBack(p, 2);
    FlattenBack(p, 3);
    FlattenBack(p, 4);
    FlattenBack(p, 5);
    FlattenBack(p, 6);
    FlattenBack(p, 7);
    FlattenBack(p, 8);
    FlattenBack(p, 9);
    assert p[..10] == p;
  }

  // ---------- reading a piece back ----------

  /** The piece of a transaction is one the iterator finds exactly when it has at most 447 keys. */
  lemma {:induction false} PieceIsWellCut(t: RouterTxn, table: nat)
    requires |t.keys| == |t.update| && Fits(5, table)
    ensures |Piece(t, table)| == MessageSize(t)
    ensures WellCut(Piece(t, table)) <==> |t.keys| <= 447
    ensures |t.keys| <= 447 ==> PieceType(Value(Piece(t, table)[..PIECE_HEADER_SIZE])) == ROUTER_TRANSACTION_REQUEST
  {
    hide Encode, Value, PieceHeader, Low, Shr, Flatten;
    var header := PieceHeader(ROUTER_TRANSACTION_REQUEST, MessageSize(t), table, 0);
    PieceFront(t, table);
    HeaderFits(ROUTER_TRANSACTION_REQUEST, MessageSize(t), table, 0);
    ValueOfEncode(header, 4);
    LengthLimit(MessageSize(t));
    PieceHeaderIsFaithful(ROUTER_TRANSACTION_REQUEST, MessageSize(t), table, 0);
  }

  lemma {:induction false} LengthLimit(size: nat)
    ensures Fits(12, size) <==> size < 4096
    ensures Fits(8, 0) && Fits(7, ROUTER_TRANSACTION_REQUEST)
  {
    FitsIff(12, size);
    FitsIff(7, ROUTER_TRANSACTION_REQUEST);
    FitsIff(8, 0);
    assert Two(12) == 4096 && Two(7) == 128;
  }

  lemma {:induction false} LowBelow(k: nat, h: nat)
    ensures Low(k, h) < Two(k)
  {
    if k > 0 {
      LowBelow(k - 1, h / 2);
    }
  }

  lemma {:induction false} EightMore(k: nat)
    ensures Two(k + 8) == 256 * Two(k) && Two(8) == 256
  {
    assert Two(k + 8) == 2 * Two(k + 7) && Two(k + 7) == 2 * Two(k + 6) && Two(k + 6) == 2 * Two(k + 5)
        && Two(k + 5) == 2 * Two(k + 4);
    assert Two(k + 4) == 2 * Two(k + 3) && Two(k + 3) == 2 * Two(k + 2) && Two(k + 2) == 2 * Two(k + 1)
        && Two(k + 1) == 2 * Two(k);
  }

  lemma {:induction false} HeaderFits(kind: nat, length: nat, table: nat, partition: nat)
    ensures PieceHeader(kind, length, table, partition) < Power(4)
  {
    hide Low;
    LowBelow(32, Shl(25, kind) + Shl(13, length) + Shl(8, table) + partition);
    EightMore(8);
    EightMore(16);
    EightMore(24);
    assert Power(4) == 0x1_0000_0000;
  }

  /** The first four bytes of a piece are its header. */
  lemma {:induction false} PieceFront(t: RouterTxn, table: nat)
    requires |t.keys| == |t.update|
    ensures |Piece(t, table)| == MessageSize(t)
    ensures Piece(t, table)[..PIECE_HEADER_SIZE]
        == Encode(PieceHeader(ROUTER_TRANSACTION_REQUEST, MessageSize(t), table, 0), 4)
  {
    hide Encode, PieceHeader, Flatten;
    var parts := Parts(t, table);
    assert parts[0..] == parts && parts[0] == FixedParts(t, table)[0];
    FlattenFront(parts, 0);
    FixedFlatten(t, table);
    FlattenSplit(parts, 10);
    KeyBytes(t, table, |t.keys|);
    assert parts[10..][..2 * |t.keys|] == parts[10..];
  }

  lemma {:induction false} KeyBytes(t: RouterTxn, table: nat, i: nat)
    requires |t.keys| == |t.update| && i <= |t.keys|
    ensures |Flatten(Parts(t, table)[10..][..2 * i])| == 9 * i
  {
    if i > 0 {
      KeyBytes(t, table, i - 1);
      KeyRound(t, table, i - 1);
    }
  }

  /** The transaction as the receiver has it: the destination went through a signed 32-bit integer. */
  function Received(t: RouterTxn): RouterTxn {
    t.(destination := AsInt(t.destination) % 0x1_0000_0000_0000_0000)
  }

  /** Only a destination that survives the 32-bit integer comes back. */
  lemma {:induction false} ReceivedIsSent(t: RouterTxn)
    requires InRange(t)
    ensures Received(t) == t <==> t.destination < 0x8000_0000 || t.destination >= 0x1_0000_0000_0000_0000 - 0x8000_0000
  {
    PowerValues();
  }

  lemma {:induction false} LowFour(v: nat)
    ensures Value(Encode(v, 4)) == v % 0x1_0000_0000
  {
    hide Value, Encode;
    var v1 := v / 256;
    var v2 := v1 / 256;
    var v3 := v2 / 256;
    LastByte(v3);
    EncodeStep(v2, 1);
    EncodeStep(v1, 2);
    EncodeStep(v, 3);
    Digits(v);
  }

  lemma {:induction false} Digits(v: nat)
    ensures v % 0x1_0000_0000
        == v % 256 + 256 * (v / 256 % 256 + 256 * (v / 256 / 256 % 256 + 256 * (v / 256 / 256 / 256 % 256)))
  {
    var v1 := v / 256;
    var v2 := v1 / 256;
    var v3 := v2 / 256;
    assert v == v % 256 + 256 * (v1 % 256) + 65536 * (v2 % 256) + 16777216 * (v3 % 256) + 0x1_0000_0000 * (v3 / 256);
  }

  lemma {:induction false} EncodeStep(v: nat, n: nat)
    ensures Value(Encode(v, n + 1)) == v % 256 + 256 * Value(Encode(v / 256, n))
  {
    assert Encode(v, n + 1)[1..] == Encode(v / 256, n);
  }

  lemma {:induction false} LastByte(v: nat)
    ensures Value(Encode(v, 1)) == v % 256
  {
    EncodeStep(v, 0);
  }

  lemma {:induction false} FieldValues(t: RouterTxn, table: nat)
    requires InRange(t) && |t.keys| <= 447
    ensures var p := FixedParts(t, table);
            && Value(p[1]) == t.op && Value(p[2]) == Flag(t.isDistributed) && Value(p[3]) == Flag(t.isRealDistributed)
            && Value(p[4]) == Flag(t.isTransmitRequest) && Value(p[5]) == t.idx && AsInt(Value(p[6])) == t.globalId
            && AsInt(Value(p[7])) == t.onReplicaId && Value(p[8]) == t.destination % 0x1_0000_0000
            && Value(p[9]) == |t.keys|
  {
    hide Value, Encode, Signed, PieceHeader, Power, AsInt;
    PowerValues();
    ValueOfEncode(t.op, 4);
    ValueOfEncode(Flag(t.isDistributed), 8);
    ValueOfEncode(Flag(t.isRealDistributed), 8);
    ValueOfEncode(Flag(t.isTransmitRequest), 8);
    ValueOfEncode(t.idx, 8);
    SignedValue(t.globalId);
    SignedValue(t.onReplicaId);
    LowFour(t.destination);
    ValueOfEncode(|t.keys|, 8);
  }

  lemma {:induction false} KeyValues(t: RouterTxn, i: nat)
    requires InRange(t) && i < |t.keys|
    ensures Value(KeyPart(t, 2 * i)) == t.keys[i] && Value(KeyPart(t, 2 * i + 1)) == Flag(t.update[i])
  {
    ValueOfEncode(t.keys[i], 8);
    assert KeyPart(t, 2 * i + 1) == [Flag(t.update[i])];
  }

  /** The reading loop for the keys and their update flags. */
  method ReadKeys(start: seq<byte>, count: nat, ghost t: RouterTxn, ghost table: nat)
          returns (keys: seq<nat>, update: seq<bool>)
    requires InRange(t) && count == |t.keys| && start == Flatten(Parts(t, table)[10..])
    ensures keys == t.keys && update == t.update
  {
    hide Value, Encode, Flatten, Parts, KeyPart;
    ghost var parts := Parts(t, table);
    var rest := start;
    keys, update := [], [];
    var i := 0;
    while i < count
      invariant 0 <= i <= count && rest == Flatten(parts[10 + 2 * i..])
      invariant keys == t.keys[..i] && update == t.update[..i]
    {
      KeyValues(t, i);
      PartSizes(t, table, i);
      var key, flag;
      key, rest := ReadField(rest, 8, parts, 10 + 2 * i);
      flag, rest := ReadField(rest, 1, parts, 11 + 2 * i);
      keys, update := keys + [key], update + [flag != 0];
      i := i + 1;
    }
  }

  lemma {:induction false} PartSizes(t: RouterTxn, table: nat, i: nat)
    requires |t.keys| == |t.update| && i < |t.keys|
    ensures var parts := Parts(t, table);
            && parts[10 + 2 * i] == KeyPart(t, 2 * i) && parts[11 + 2 * i] == KeyPart(t, 2 * i + 1)
            && |parts[10 + 2 * i]| == 8 && |parts[11 + 2 * i]| == 1
  {
    hide Encode, FixedParts, KeyPart;
    KeyPartIs(t, table, 2 * i);
    KeyPartIs(t, table, 2 * i + 1);
    KeyPartSizes(t, i);
  }

  lemma {:induction false} KeyPartIs(t: RouterTxn, table: nat, k: nat)
    requires |t.keys| == |t.update| && k < 2 * |t.keys|
    ensures 10 + k < |Parts(t, table)| && Parts(t, table)[10 + k] == KeyPart(t, k)
  {
    hide FixedParts, KeyPart;
  }

  lemma {:induction false} KeyPartSizes(t: RouterTxn, i: nat)
    requires |t.keys| == |t.update| && i < |t.keys|
    ensures |KeyPart(t, 2 * i)| == 8 && |KeyPart(t, 2 * i + 1)| == 1
  {
    hide Encode;
  }

  lemma {:induction false} FixedSizes(t: RouterTxn, table: nat)
    requires |t.keys| == |t.update|
    ensures var parts := Parts(t, table);
            && (forall k :: 0 <= k < 10 ==> parts[k] == FixedParts(t, table)[k])
            && |parts[1]| == |parts[7]| == |parts[8]| == 4
            && |parts[2]| == |parts[3]| == |parts[4]| == |parts[5]| == |parts[6]| == |parts[9]| == 8
  {
    hide Encode, Signed, PieceHeader;
    var parts, fixed := Parts(t, table), FixedParts(t, table);
    forall k | 0 <= k < 10 ensures parts[k] == fixed[k] {
      assert parts[..10][k] == fixed[k];
    }
  }

  /** The fixed fields, read one after the other. */
  method ReadFixed(start: seq<byte>, ghost t: RouterTxn, ghost table: nat)
    returns (op: nat, flags: (bool, bool, bool), idx: nat, globalId: int, onReplicaId: int, destination: nat,
        count: nat, rest: seq<byte>)
    requires InRange(t) && |t.keys| <= 447 && start == Flatten(Parts(t, table)[1..])
    ensures op == t.op && flags == (t.isDistributed, t.isRealDistributed, t.isTransmitRequest) && idx == t.idx
    ensures globalId == t.globalId && onReplicaId == t.onReplicaId && destination == Received(t).destination
    ensures count == |t.keys|
    ensures rest == Flatten(Parts(t, table)[10..])
  {
    hide Value, Encode, Flatten, Parts, FixedParts;
    ghost var parts := Parts(t, table);
    FieldValues(t, table);
    FixedSizes(t, table);
    var distributed, realDistributed, transmit, w;
    rest := start;
    op, rest := ReadField(rest, 4, parts, 1);
    distributed, rest := ReadField(rest, 8, parts, 2);
    realDistributed, rest := ReadField(rest, 8, parts, 3);
    transmit, rest := ReadField(rest, 8, parts, 4);
    idx, rest := ReadField(rest, 8, parts, 5);
    w, rest := ReadField(rest, 8, parts, 6);
    globalId := AsInt(w);
    w, rest := ReadField(rest, 4, parts, 7);
    onReplicaId := AsInt(w);
    w, rest := ReadField(rest, 4, parts, 8);
    destination := AsInt(w) % 0x1_0000_0000_0000_0000;
    count, rest := ReadField(rest, 8, parts, 9);
    flags := (distributed != 0, realDistributed != 0, transmit != 0);
  }

  /** `router_transaction_handler` on the piece of any transaction: every field comes back. */
  method RouterTransactionHandler(piece: seq<byte>, ghost t: RouterTxn, ghost table: nat)
          returns (txn: RouterTxn, size: nat)
    requires InRange(t) && Fits(5, table) && |t.keys| <= 447 && piece == Piece(t, table)
    ensures txn == Received(t) && size == |piece|
  {
    hide Value, Encode, Flatten, Parts, FixedParts, AsInt;
    PieceIsWellCut(t, table);
    var header := Value(piece[..PIECE_HEADER_SIZE]);
    size := PieceLength(header);
    AfterHeader(t, table);
    var rest := piece[PIECE_HEADER_SIZE..size];
    var op, flags, idx, globalId, onReplicaId, destination, count;
    op, flags, idx, globalId, onReplicaId, destination, count, rest := ReadFixed(rest, t, table);
    var keys, update := ReadKeys(rest, count, t, table);
    txn := RouterTxn(op, flags.0, flags.1, flags.2, idx, globalId, onReplicaId, destination, keys, update);
  }

  lemma {:induction false} AfterHeader(t: RouterTxn, table: nat)
    requires |t.keys| == |t.update|
    ensures |Piece(t, table)| >= PIECE_HEADER_SIZE
    ensures Piece(t, table)[PIECE_HEADER_SIZE..] == Flatten(Parts(t, table)[1..])
  {
    hide Encode, PieceHeader, Flatten;
    var parts := Parts(t, table);
    assert parts[0..] == parts && parts[0] == FixedParts(t, table)[0];
    FlattenFront(parts, 0);
  }

  // ---------- a whole message ----------

  ghost predicate Sendable(txns: seq<RouterTxn>) {
    forall i :: 0 <= i < |txns| ==> InRange(txns[i]) && |txns[i].keys| <= 447
  }

  function TotalSize(txns: seq<RouterTxn>): nat {
    if txns == [] then 0 else TotalSize(txns[..|txns| - 1]) + MessageSize(txns[|txns| - 1])
  }

  /** The message holds one piece for each transaction. */
  ghost predicate Carries(pieces: seq<seq<byte>>, txns: seq<RouterTxn>, table: nat) {
    |pieces| == |txns| && Sendable(txns) && forall i :: 0 <= i < |txns| ==> pieces[i] == Piece(txns[i], table)
  }

  lemma {:induction false} SizeOfPrefix(txns: seq<RouterTxn>, i: nat)
    requires i <= |txns|
    ensures TotalSize(txns[..i]) <= TotalSize(txns)
    ensures i < |txns| ==> TotalSize(txns[..i + 1]) == TotalSize(txns[..i]) + MessageSize(txns[i])
    decreases |txns| - i
  {
    if i < |txns| {
      assert txns[..i + 1][..i] == txns[..i];
      SizeOfPrefix(txns, i + 1);
    } else {
      assert txns[..i] == txns;
    }
  }

  /** All transactions are appended to one message. */
  method SendAll(txns: seq<RouterTxn>, table: nat) returns (message: WireMessage)
    requires Sendable(txns) && PREFIX_SIZE + TotalSize(txns) < 0x800_0000
    ensures fresh(message) && message.Valid() && Carries(message.pieces, txns, table)
  {
    hide Piece, Fits, Low, GetField;
    message := new WireMessage();
    var i := 0;
    while i < |txns|
      invariant 0 <= i <= |txns| && fresh(message) && message.Valid() && |message.body| == TotalSize(txns[..i])
      invariant |message.pieces| == i && forall k :: 0 <= k < i ==> message.pieces[k] == Piece(txns[k], table)
    {
      SizeOfPrefix(txns, i);
      SizeOfPrefix(txns, i + 1);
      LengthFits(PREFIX_SIZE + |message.body| + MessageSize(txns[i]));
      ghost var pieces := message.pieces;
      var size := NewRouterTransactionMessage(message, table, txns[i]);
      FlattenAppend(pieces, Piece(txns[i], table));
      i := i + 1;
    }
  }

  lemma {:induction false} LengthFits(v: nat)
    ensures Fits(27, v) <==> v < 0x800_0000
  {
    FitsIff(27, v);
    EightMore(16);
    EightMore(8);
    assert Two(27) == 2 * Two(26) && Two(26) == 2 * Two(25) && Two(25) == 2 * Two(24);
  }

  /** The receiving loop: as many pieces as transactions, each handled. The header's count agrees
      exactly while there are fewer than 2^15 of them. */
  method ReceiveAll(message: WireMessage, ghost txns: seq<RouterTxn>, ghost table: nat)
          returns (received: seq<RouterTxn>)
    requires message.Valid() && Carries(message.pieces, txns, table) && Fits(5, table)
    ensures |received| == |txns| && forall i :: 0 <= i < |txns| ==> received[i] == Received(txns[i])
    ensures MessageCount(message.header) == |received| <==> |received| < 0x8000
  {
    hide Piece, Received, Fits;
    forall i | 0 <= i < |txns| ensures WellCut(message.pieces[i]) {
      PieceIsWellCut(txns[i], table);
    }
    var pieces := message.ReadPieces();
    received := [];
    var i := 0;
    while i < |pieces|
      invariant 0 <= i <= |pieces| && |received| == i && forall k :: 0 <= k < i ==> received[k] == Received(txns[k])
    {
      var txn, size := RouterTransactionHandler(pieces[i], txns[i], table);
      received := received + [txn];
      i := i + 1;
    }
    CountLimit(|received|);
  }

  lemma {:induction false} CountLimit(n: nat)
    ensures Fits(15, n) <==> n < 0x8000
  {
    FitsIff(15, n);
    assert Two(15) == 0x8000;
  }
}
