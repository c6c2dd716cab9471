/** The keyboard's ring buffer as a bounded FIFO. */
module IoQueue {

  const BUF_SIZE := 64

  type Pos = p: nat | p < BUF_SIZE

  function NextPos(pos: Pos): Pos {
    (pos + 1) % BUF_SIZE
  }

  /** The number of unread bytes. */
  function Count(head: Pos, tail: Pos): nat {
    (head - tail) % BUF_SIZE
  }

  /** The i-th slot after tail, around the ring. */
  function Slot(tail: Pos, i: nat): Pos {
    (tail + i) % BUF_SIZE
  }

  /** The unread bytes, oldest first: from tail up to head, wrapping around. */
  function Unread(buf: seq<char>, head: Pos, tail: Pos): (q: seq<char>)
    requires |buf| == BUF_SIZE
    ensures |q| == Count(head, tail)
  {
    seq(Count(head, tail), i requires 0 <= i => buf[Slot(tail, i)])
  }

  /** The full and empty tests of the code see the length of the abstract queue. */
  lemma FullAndEmpty(buf: seq<char>, head: Pos, tail: Pos)
    requires |buf| == BUF_SIZE
    ensures NextPos(head) == tail <==> |Unread(buf, head, tail)| == 63
    ensures head == tail <==> Unread(buf, head, tail) == []
    ensures |Unread(buf, head, tail)| <= 63
  {
  }

  lemma SlotOfHead(head: Pos, tail: Pos, i: nat)
    requires i <= Count(head, tail)
    ensures Slot(tail, i) == head <==> i == Count(head, tail)
  {
  }

  lemma SlotOfNext(tail: Pos, i: nat)
    ensures Slot(NextPos(tail), i) == Slot(tail, i + 1)
  {
  }

  lemma CountAfterPut(head: Pos, tail: Pos)
    requires NextPos(head) != tail
    ensures Count(NextPos(head), tail) == Count(head, tail) + 1
  {
  }

  lemma CountAfterGet(head: Pos, tail: Pos)
    requires head != tail
    ensures Count(head, tail) >= 1 && Count(head, NextPos(tail)) == Count(head, tail) - 1 && Slot(tail, 0) == tail
  {
  }

  /** A put into a queue that is not full appends. */
  lemma PutAppends(buf: seq<char>, head: Pos, tail: Pos, byte: char)
    requires |buf| == BUF_SIZE && NextPos(head) != tail
    ensures Unread(buf[head := byte], NextPos(head), tail) == Unread(buf, head, tail) + [byte]
  {
    hide Slot, Count, NextPos;
    var n := Count(head, tail);
    CountAfterPut(head, tail);
    forall i | 0 <= i <= n ensures Slot(tail, i) == head <==> i == n { SlotOfHead(head, tail, i); }
  }

  /** A get from a queue that is not empty removes the oldest byte. */
  lemma GetRemoves(buf: seq<char>, head: Pos, tail: Pos)
    requires |buf| == BUF_SIZE && head != tail
    ensures Unread(buf, head, tail) == [buf[tail]] + Unread(buf, head, NextPos(tail))
  {
    hide Slot, Count, NextPos;
    var n := Count(head, tail);
    CountAfterGet(head, tail);
    forall i | 0 <= i < n - 1 ensures Slot(NextPos(tail), i) == Slot(tail, i + 1) { SlotOfNext(tail, i); }
  }

  // ----- runs of non-blocking operations -----

  datatype Op = Put(byte: char) | Get

  /** The ring, and every byte ever put and got. */
  datatype Ring = Ring(buf: seq<char>, head: Pos, tail: Pos, written: seq<char>, taken: seq<char>)

  /** One operation; it does nothing where the code would wait. */
  function Step(r: Ring, op: Op): Ring
    requires |r.buf| == BUF_SIZE
  {
    match op
    case Put(byte) =>
      if NextPos(r.head) == r.tail then r
      else Ring(r.buf[r.head := byte], NextPos(r.head), r.tail, r.written + [byte], r.taken)
    case Get =>
      if r.head == r.tail then r
      else Ring(r.buf, r.head, NextPos(r.tail), r.written, r.taken + [r.buf[r.tail]])
  }

  function Run(r: Ring, ops: seq<Op>): (r': Ring)
    requires |r.buf| == BUF_SIZE
    ensures |r'.buf| == BUF_SIZE
    decreases |ops|
  {
    if ops == [] then r else Run(Step(r, ops[0]), ops[1..])
  }

  /** First in, first out over every run: the bytes read are a prefix of the bytes written, and the
      unread bytes are exactly the rest. */
  lemma {:induction false} RunIsFifo(r: Ring, ops: seq<Op>)
    requires |r.buf| == BUF_SIZE && r.written == r.taken + Unread(r.buf, r.head, r.tail)
    ensures var r' := Run(r, ops); r'.written == r'.taken + Unread(r'.buf, r'.head, r'.tail)
    ensures Run(r, ops).taken <= Run(r, ops).written
    decreases |ops|
  {
    if ops != [] {
      match ops[0]
      case Put(byte) =>
        if NextPos(r.head) != r.tail { PutAppends(r.buf, r.head, r.tail, byte); }
        RunIsFifo(Step(r, ops[0]), ops[1..]);
      case Get =>
        if r.head != r.tail { GetRemoves(r.buf, r.head, r.tail); }
        RunIsFifo(Step(r, ops[0]), ops[1..]);
    }
  }

  class Queue {
    const buf: array<char>
    var head: Pos
    var tail: Pos
    ghost var written: seq<char>   // every byte ever put
    ghost var taken: seq<char>     // every byte ever got

    ghost function Contents(): seq<char>
      requires buf.Length == BUF_SIZE
      reads this, buf
    {
      Unread(buf[..], head, tail)
    }

    ghost function View(): Ring
      reads this, buf
    {
      Ring(buf[..], head, tail, written, taken)
    }

    /** The bytes read are a prefix of the bytes written, and the unread bytes are the rest. */
    ghost predicate Valid()
      reads this, buf
    {
      buf.Length == BUF_SIZE && written == taken + Contents()
    }

    constructor ()
      ensures Valid() && Contents() == [] && written == [] && taken == [] && fresh(buf)
    {
      buf := new char[BUF_SIZE];
      head, tail := 0, 0;
      written, taken := [], [];
    }

    method IsFull() returns (full: bool)
      requires Valid()
      ensures full <==> |Contents()| == BUF_SIZE - 1
    {
      FullAndEmpty(buf[..], head, tail);
      full := NextPos(head) == tail;
    }

    method IsEmpty() returns (empty: bool)
      requires Valid()
      ensures empty <==> Contents() == []
    {
      FullAndEmpty(buf[..], head, tail);
      empty := head == tail;
    }

    /** ioq_putchar up to the point where it would wait for room. */
    method PutChar(byte: char) returns (done: bool)
      requires Valid()
      modifies this, buf
      ensures Valid() && taken == old(taken)
      ensures done <==> |old(Contents())| < BUF_SIZE - 1
      ensures done ==> Contents() == old(Contents()) + [byte] && written == old(written) + [byte]
      ensures View() == Step(old(View()), Put(byte))
    {
      var full := IsFull();
      FullAndEmpty(buf[..], head, tail);
      if full { return false; }
      PutAppends(buf[..], head, tail, byte);
      ghost var was := buf[..];
      buf[head] := byte;
      assert buf[..] == was[head := byte];
      head := NextPos(head);
      written := written + [byte];
      done := true;
    }

    /** ioq_getchar up to the point where it would wait for a byte. */
    method GetChar() returns (done: bool, byte: char)
      requires Valid()
      modifies this
      ensures Valid() && written == old(written)
      ensures done <==> old(Contents()) != []
      ensures done ==> old(Contents()) == [byte] + Contents() && taken == old(taken) + [byte]
      ensures View() == Step(old(View()), Get)
    {
      byte := '\0';
      var empty := IsEmpty();
      if empty { return false, byte; }
      GetRemoves(buf[..], head, tail);
      byte := buf[tail];
      tail := NextPos(tail);
      taken := taken + [byte];
      done := true;
    }
  }
}
