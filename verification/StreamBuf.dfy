/** `asio::basic_streambuf`: one growable array, get and put positions in it, and a size cap. */
module StreamBuf {
  import opened Chars

  type byte = b: int | 0 <= b < 256

  const BUFFER_DELTA: nat := 128

  function Min(a: nat, b: nat): (m: nat)
    ensures m <= a && m <= b && (m == a || m == b)
  {
    if a <= b then a else b
  }

  function Max(a: nat, b: nat): (m: nat)
    ensures a <= m && b <= m && (m == a || m == b)
  {
    if a <= b then b else a
  }

  /** What a failed `reserve` leaves readable: its `memmove` has run, but the get position, still
      `shift`, now points into the moved bytes. */
  function Smeared(data: seq<byte>, shift: nat): (r: seq<byte>)
    ensures |r| == |data|
  {
    if shift >= |data| then data else data[shift..] + data[|data| - shift..]
  }

  /** The bytes repeat at the distance `shift`, as far as the move reached. */
  predicate Survives(data: seq<byte>, shift: nat) {
    shift >= |data| || forall i :: 0 <= i < |data| - shift ==> data[i] == data[i + shift]
  }

  /** A failed `reserve` leaves the contents as they were exactly if they survive the move. */
  lemma SmearedIff(data: seq<byte>, shift: nat)
    ensures Smeared(data, shift) == data <==> Survives(data, shift)
  {
    var r, n := Smeared(data, shift), |data|;
    if shift < n {
      if r == data {
        forall i | 0 <= i < n - shift
          ensures data[i] == data[i + shift]
        {
          assert r[i] == data[shift..][i];
        }
      }
    }
  }

  class BasicStreambuf {
    const maxSize: nat
    var buffer: array<byte>
    // Positions as offsets from &buffer_[0], where eback() always points.
    var gptr: nat
    var egptr: nat
    var pptr: nat
    var epptr: nat

    ghost predicate Valid()
      reads this
    {
      && gptr <= egptr <= pptr <= epptr <= maxSize
      && buffer.Length == Max(epptr, 1)
    }

    /** The input sequence, `data()`. */
    ghost function Data(): (d: seq<byte>)
      requires Valid()
      reads this, buffer
      ensures |d| == Size() <= maxSize
    {
      buffer[gptr..pptr]
    }

    function Size(): (n: nat)
      requires Valid()
      reads this
      ensures n <= maxSize
    {
      pptr - gptr
    }

    constructor (maximumSize: nat)
      ensures Valid() && fresh(buffer)
      ensures maxSize == maximumSize && Data() == [] && gptr == 0 && epptr == Min(maximumSize, BUFFER_DELTA)
    {
      maxSize := maximumSize;
      var pend := Min(maximumSize, BUFFER_DELTA);
      buffer := new byte[Max(pend, 1)];
      gptr, egptr, pptr, epptr := 0, 0, 0, pend;
    }

    /** `reserve` succeeds exactly if the cap allows it. Then the data is what it was and `n` cells
        are writable. If it throws, every position is where it was, but the data is smeared, which
        it survives only if it repeats itself. */
    method Reserve(n: nat) returns (ok: bool)
      requires Valid()
      modifies this, buffer
      ensures Valid() && (buffer == old(buffer) || fresh(buffer))
      ensures ok <==> old(Size()) + n <= maxSize
      ensures ok ==> Data() == old(Data()) && n <= epptr - pptr
      ensures ok ==> gptr == if n <= old(epptr - pptr) then old(gptr) else 0
      ensures ok ==> epptr == if n <= old(epptr - pptr) then old(epptr) else Max(old(epptr), old(Size()) + n)
      ensures !ok ==> gptr == old(gptr) && egptr == old(egptr) && pptr == old(pptr) && epptr == old(epptr)
      ensures !ok ==> Data() == Smeared(old(Data()), old(gptr))
    {
      hide Smeared, Data;
      var gnext, pnext, pend := gptr, pptr, epptr;
      if n <= pend - pnext {
        return true;
      }
      pnext := ShiftDown(gnext, pnext);
      if n > pend - pnext {
        if n <= maxSize && pnext <= maxSize - n {
          pend := pnext + n;
          Resize(Max(pend, 1), pnext);
        } else {
          SmearedData(old(Data()));
          return false;
        }
      }
      gptr, egptr, pptr, epptr := 0, pnext, pnext, pend;
      DataFromStart();
      ok := true;
    }

    lemma DataFromStart()
      requires Valid() && gptr == 0
      ensures Data() == buffer[..pptr]
    {
    }

    /** The shift of the contents to the start of the buffer. */
    method ShiftDown(gnext: nat, pnext: nat) returns (size: nat)
      requires Valid() && gnext == gptr && pnext == pptr
      modifies buffer
      ensures size == Size() <= buffer.Length
      ensures buffer[..size] == old(Data()) && buffer[size..] == old(buffer[size..])
    {
      size := pnext;
      if gnext > 0 {
        size := size - gnext;
        MoveDown(gnext, size);
      }
    }

    /** `memmove(&buffer_[0], &buffer_[0] + from, count)` */
    method MoveDown(from: nat, count: nat)
      requires from + count <= buffer.Length
      modifies buffer
      ensures buffer[..count] == old(buffer[from..from + count])
      ensures buffer[count..] == old(buffer[count..])
    {
      forall i | 0 <= i < count {
        buffer[i] := buffer[from + i];
      }
    }

    /** `buffer_.resize(length)`, to a larger length; `kept` of its cells matter. */
    method Resize(length: nat, ghost kept: nat)
      requires kept <= buffer.Length <= length
      modifies this`buffer
      ensures fresh(buffer) && buffer.Length == length
      ensures buffer[..kept] == old(buffer[..kept])
    {
      var grown := new byte[length](_ => 0);
      forall i | 0 <= i < buffer.Length {
        grown[i] := buffer[i];
      }
      buffer := grown;
    }

    twostate lemma SmearedData(data: seq<byte>)
      requires old(Valid()) && Valid() && data == old(Data())
      requires buffer == old(buffer) && gptr == old(gptr) && pptr == old(pptr)
      requires buffer[..|data|] == data
      requires buffer[|data|..] == old(buffer[|data|..])
      ensures Data() == Smeared(data, gptr)
    {
      var n := |data|;
      forall i | 0 <= i < n
        ensures Data()[i] == Smeared(data, gptr)[i]
      {
        if gptr + i < n {
          assert Data()[i] == buffer[..n][gptr + i];
        } else {
          assert Data()[i] == buffer[n..][gptr + i - n] == old(buffer[n..])[gptr + i - n];
          assert data[i] == old(buffer[gptr + i]);
        }
      }
    }

    /** The output sequence handed out is the `n` cells from `pptr` on. */
    method Prepare(n: nat) returns (ok: bool)
      requires Valid()
      modifies this, buffer
      ensures Valid() && (buffer == old(buffer) || fresh(buffer))
      ensures ok <==> old(Size()) + n <= maxSize
      ensures ok ==> Data() == old(Data()) && n <= epptr - pptr
      ensures ok ==> gptr == if n <= old(epptr - pptr) then old(gptr) else 0
      ensures ok ==> epptr == if n <= old(epptr - pptr) then old(epptr) else Max(old(epptr), old(Size()) + n)
      ensures !ok ==> gptr == old(gptr) && epptr == old(epptr) && Data() == Smeared(old(Data()), old(gptr))
      ensures !ok ==> (Data() == old(Data()) <==> Survives(old(Data()), old(gptr)))
    {
      ok := Reserve(n);
      SmearedIff(old(Data()), old(gptr));
    }

    /** What a reader does with the prepared cells. */
    method WriteOutput(bytes: seq<byte>)
      requires Valid() && |bytes| <= epptr - pptr
      modifies buffer
      ensures Valid() && Data() == old(Data())
      ensures buffer[pptr..pptr + |bytes|] == bytes
    {
      forall i | 0 <= i < |bytes| {
        buffer[pptr + i] := bytes[i];
      }
    }

    method Commit(n: nat)
      requires Valid()
      modifies this
      ensures Valid() && buffer == old(buffer) && gptr == old(gptr) && epptr == old(epptr)
      ensures Data() == old(Data() + buffer[pptr..pptr + Min(n, epptr - pptr)])
    {
      var m := Min(n, epptr - pptr);
      pptr := pptr + m;
      egptr := pptr;
      assert buffer[gptr..pptr] == buffer[gptr..old(pptr)] + buffer[old(pptr)..pptr];
    }

    method Consume(n: nat)
      requires Valid()
      modifies this
      ensures Valid() && buffer == old(buffer)
      ensures Data() == old(Data())[Min(n, old(Size()))..]
      ensures gptr == old(gptr) + Min(n, old(Size())) && epptr == old(epptr)
    {
      if egptr < pptr {
        egptr := pptr;
      }
      var m := n;
      if gptr + m > pptr {
        m := pptr - gptr;
      }
      gptr := gptr + m;
    }

    /** The first byte of the input sequence, if there is one, made readable in the get area. */
    method Underflow() returns (c: Option<byte>)
      requires Valid()
      modifies this`egptr
      ensures Valid() && Data() == old(Data())
      ensures c == if Data() == [] then None else Some(Data()[0])
      ensures c.Some? ==> gptr < egptr
    {
      if gptr < pptr {
        egptr := pptr;
        c := Some(buffer[gptr]);
      } else {
        c := None;
      }
    }

    /** Where a put that grows leaves the positions: at most 128 more cells, within the cap. */
    ghost predicate PositionsAfterPut(g: nat, p: nat, e: nat)
      requires g <= p <= e
      reads this
    {
      && gptr == (if p < e then g else 0)
      && var room := if p - g <= maxSize then maxSize - (p - g) else 0;
         epptr == if p < e then e else Max(e, p - g + Min(BUFFER_DELTA, room))
    }

    /** `overflow`; `None` is the end-of-file value. Called on a full put area it fails exactly if
        the buffer holds `maxSize` bytes, and appends exactly its byte otherwise. A buffer that
        full has nothing to shift, so failing here changes nothing. */
    method Overflow(c: Option<byte>) returns (ok: bool)
      requires Valid()
      modifies this, buffer
      ensures Valid() && (buffer == old(buffer) || fresh(buffer))
      ensures c.None? ==> ok && Data() == old(Data())
      ensures c.Some? ==> (ok <==> old(Size()) < maxSize)
      ensures c.Some? && ok ==> Data() == old(Data()) + [c.value]
      ensures c.Some? && ok ==> PositionsAfterPut(old(gptr), old(pptr), old(epptr))
      ensures !ok ==> Data() == old(Data()) && gptr == old(gptr) && epptr == old(epptr)
    {
      hide Smeared, Data;
      ok := true;
      if c.Some? {
        if pptr == epptr {
          ok := Grow();
          if !ok {
            return;
          }
        }
        PutByte(c.value);
      }
    }

    /** The growth of a full put area: up to the cap if that is near, by 128 cells otherwise. */
    method Grow() returns (ok: bool)
      requires Valid() && pptr == epptr
      modifies this, buffer
      ensures Valid() && (buffer == old(buffer) || fresh(buffer)) && Data() == old(Data())
      ensures ok <==> old(Size()) < maxSize
      ensures ok ==> pptr < epptr && gptr == 0 && epptr == Max(old(epptr), Size() + Min(BUFFER_DELTA, maxSize - Size()))
      ensures !ok ==> gptr == old(gptr) && epptr == old(epptr)
    {
      hide Smeared, Data;
      var bufferSize := pptr - gptr;
      if bufferSize < maxSize && maxSize - bufferSize < BUFFER_DELTA {
        ok := Reserve(maxSize - bufferSize);
      } else {
        ok := Reserve(BUFFER_DELTA);
      }
      NoShift(old(Data()));
    }

    lemma NoShift(data: seq<byte>)
      ensures Smeared(data, 0) == data
    {
    }

    /** `*pptr() = c; pbump(1);` */
    method PutByte(c: byte)
      requires Valid() && pptr < epptr
      modifies this, buffer
      ensures Valid() && buffer == old(buffer) && gptr == old(gptr) && epptr == old(epptr)
      ensures Data() == old(Data()) + [c]
    {
      ghost var data := Data();
      buffer[pptr] := c;
      assert buffer[gptr..pptr] == data;
      pptr := pptr + 1;
    }

    /** `std::streambuf::sputc` */
    method Sputc(c: byte) returns (ok: bool)
      requires Valid()
      modifies this, buffer
      ensures Valid() && (buffer == old(buffer) || fresh(buffer))
      ensures ok <==> old(Size()) < maxSize
      ensures ok ==> Data() == old(Data()) + [c] && PositionsAfterPut(old(gptr), old(pptr), old(epptr))
      ensures !ok ==> Data() == old(Data()) && gptr == old(gptr) && epptr == old(epptr)
    {
      if pptr < epptr {
        PutByte(c);
        ok := true;
      } else {
        ok := Overflow(Some(c));
      }
    }

    /** `std::streambuf::sbumpc` */
    method Sbumpc() returns (c: Option<byte>)
      requires Valid()
      modifies this
      ensures Valid() && buffer == old(buffer)
      ensures c == if old(Data()) == [] then None else Some(old(Data())[0])
      ensures Data() == old(Data())[Min(1, old(Size()))..]
      ensures gptr == old(gptr) + Min(1, old(Size())) && epptr == old(epptr)
    {
      if gptr < egptr {
        c := Some(buffer[gptr]);
        gptr := gptr + 1;
      } else {
        c := Underflow();
        if c.Some? {
          gptr := gptr + 1;
        }
      }
    }

    /** `read_size_helper`; `capacity` is the vector's, which is never below its size. Both
        subtractions are of a smaller number, and preparing the result cannot fail. Of what is asked
        for it is as much as fits under the cap, but no more than 512 bytes, or than the vector can
        take without growing if that is more. */
    function ReadSizeHelper(request: nat, capacity: nat): (n: nat)
      requires Valid() && buffer.Length <= capacity
      reads this
      ensures Size() <= capacity && Size() <= maxSize
      ensures Size() + n <= maxSize && n <= request
      ensures n == 0 <==> request == 0 || Size() == maxSize
      ensures n <= 512 || n <= capacity - Size()
      ensures n < request && n < maxSize - Size() ==> n >= 512 && n >= capacity - Size()
    {
      Min(Max(512, capacity - Size()), Min(request, maxSize - Size()))
    }
  }

  // Whole runs

  /** One use of the buffer: put a character; prepare `n` cells, write `bytes` into them and commit
      as many; consume; or read a character. */
  datatype Op =
    | Put(c: byte)
    | Receive(n: nat, bytes: seq<byte>)
    | Discard(n: nat)
    | Get

  ghost predicate Legal(ops: seq<Op>) {
    forall i :: 0 <= i < |ops| ==> ops[i].Receive? ==> |ops[i].bytes| <= ops[i].n
  }

  /** A queue of bytes, the cells before them, the end of the cells in use, and what was ever
      removed and added. */
  datatype Queue = Queue(data: seq<byte>, lead: nat, end: nat, removed: seq<byte>, added: seq<byte>)

  /** The bytes an operation adds if it is not refused. */
  function AddedBy(op: Op): seq<byte> {
    match op
    case Put(c) => [c]
    case Receive(_, bytes) => bytes
    case _ => []
  }

  /** How many cells an operation claims; it is refused exactly if they do not fit under the cap. */
  function Claim(op: Op): nat {
    match op
    case Put(_) => 1
    case Receive(n, _) => n
    case _ => 0
  }

  predicate Refused(q: Queue, cap: nat, op: Op) {
    |q.data| + Claim(op) > cap
  }

  /** How many bytes an operation takes off the front of a queue of this size. */
  function Taken(op: Op, size: nat): (n: nat)
    ensures n <= size
  {
    match op
    case Discard(n) => Min(n, size)
    case Get => Min(1, size)
    case _ => 0
  }

  function Room(q: Queue): int {
    q.end - q.lead - |q.data|
  }

  /** How many cells an operation reserves: what it claims, except that a put on a full put area
      asks for 128 of them, as far as the cap allows. */
  function Reserving(q: Queue, cap: nat, op: Op): nat {
    if op.Put? && Room(q) == 0 && |q.data| <= cap then Min(BUFFER_DELTA, cap - |q.data|) else Claim(op)
  }

  /** One operation. A refused one changes nothing, except that a refused `prepare` smears. */
  function Next(q: Queue, cap: nat, op: Op): Queue {
    var n, m := Reserving(q, cap, op), Taken(op, |q.data|);
    if Refused(q, cap, op) then
      if op.Receive? then q.(data := Smeared(q.data, q.lead)) else q
    else if n <= Room(q) then
      Queue(q.data[m..] + AddedBy(op), q.lead + m, q.end, q.removed + q.data[..m], q.added + AddedBy(op))
    else
      Queue(q.data[m..] + AddedBy(op), m, Max(q.end, |q.data| + n), q.removed + q.data[..m], q.added + AddedBy(op))
  }

  function RunQueue(q: Queue, cap: nat, ops: seq<Op>): Queue {
    if ops == [] then q else Next(RunQueue(q, cap, ops[..|ops| - 1]), cap, ops[|ops| - 1])
  }

  /** What is left of the data after a refused `prepare`, byte by byte. */
  lemma SmearedAt(data: seq<byte>, shift: nat, i: nat)
    requires i < |data|
    ensures Smeared(data, shift)[i] == if i + shift < |data| then data[i + shift] else data[i]
  {
  }

  /** A put appends its byte if there is less than the cap; on a full put area it moves the data to the
      front and makes room for 128 bytes, as far as the cap allows. */
  lemma PutStep(q: Queue, cap: nat, c: byte)
    ensures var r := Next(q, cap, Put(c));
            && (|q.data| >= cap ==> r == q)
            && (|q.data| < cap ==>
                  && r.data == q.data + [c] && r.added == q.added + [c] && r.removed == q.removed
                  && (q.lead + |q.data| < q.end ==> r.lead == q.lead && r.end == q.end)
                  && (q.lead + |q.data| == q.end ==>
                        r.lead == 0 && r.end == Max(q.end, |q.data| + Min(128, cap - |q.data|))))
  {
    assert q.data[0..] == q.data && q.removed + q.data[..0] == q.removed;
  }

  /** A receive appends its bytes if what it prepares fits under the cap; if not it smears. Data that
      leaves too little room moves to the front. */
  lemma ReceiveStep(q: Queue, cap: nat, n: nat, bytes: seq<byte>)
    ensures var r := Next(q, cap, Receive(n, bytes));
            && (|q.data| + n > cap ==> r == q.(data := Smeared(q.data, q.lead)))
            && (|q.data| + n <= cap ==>
                  && r.data == q.data + bytes && r.added == q.added + bytes && r.removed == q.removed
                  && (q.lead + |q.data| + n <= q.end ==> r.lead == q.lead && r.end == q.end)
                  && (q.lead + |q.data| + n > q.end ==> r.lead == 0 && r.end == Max(q.end, |q.data| + n)))
  {
    hide Smeared;
    assert q.data[0..] == q.data && q.removed + q.data[..0] == q.removed;
  }

  /** A consume takes its bytes off the front, or all there are; a read takes one. */
  lemma TakeStep(q: Queue, cap: nat, n: nat)
    requires |q.data| <= cap && q.lead + |q.data| <= q.end
    ensures var m := if n <= |q.data| then n else |q.data|;
            Next(q, cap, Discard(n)) == Queue(q.data[m..], q.lead + m, q.end, q.removed + q.data[..m], q.added)
    ensures Next(q, cap, Get) == Next(q, cap, Discard(1))
  {
    assert forall m :: 0 <= m <= |q.data| ==> q.data[m..] + [] == q.data[m..];
    assert q.added + [] == q.added;
  }

  /** First in, first out, nothing lost: all that was ever added is what was removed followed by
      what is there. */
  predicate Conserves(q: Queue) {
    q.added == q.removed + q.data
  }

  /** The operation is a `prepare` beyond the cap, at contents that do not repeat themselves. */
  predicate Loses(q: Queue, cap: nat, op: Op) {
    op.Receive? && Refused(q, cap, op) && !Survives(q.data, q.lead)
  }

  lemma NextConserves(q: Queue, cap: nat, op: Op)
    requires Conserves(q)
    ensures Conserves(Next(q, cap, op)) <==> !Loses(q, cap, op)
  {
    hide Smeared, Survives, Room, Reserving, Taken, AddedBy, Claim;
    if Refused(q, cap, op) {
      SmearedIff(q.data, q.lead);
      SameTail(q.removed, q.data, Smeared(q.data, q.lead));
    } else {
      var m := Taken(op, |q.data|);
      Regroup(q.removed, q.data[..m], q.data[m..], AddedBy(op));
      assert q.data[..m] + q.data[m..] == q.data;
    }
  }

  lemma SameTail<T>(r: seq<T>, a: seq<T>, b: seq<T>)
    ensures r + a == r + b <==> a == b
  {
    assert (r + a)[|r|..] == a && (r + b)[|r|..] == b;
  }

  lemma Regroup<T>(r: seq<T>, a: seq<T>, b: seq<T>, c: seq<T>)
    ensures (r + a) + (b + c) == r + (a + b) + c
  {
  }

  /** The law holds before and after every operation. */
  ghost predicate AlwaysConserves(q: Queue, cap: nat, ops: seq<Op>) {
    forall k :: 0 <= k <= |ops| ==> Conserves(RunQueue(q, cap, ops[..k]))
  }

  ghost predicate NeverLoses(q: Queue, cap: nat, ops: seq<Op>) {
    forall k :: 0 <= k < |ops| ==> !Loses(RunQueue(q, cap, ops[..k]), cap, ops[k])
  }

  lemma AlwaysSnoc(q: Queue, cap: nat, ops: seq<Op>)
    requires ops != []
    ensures var front := ops[..|ops| - 1];
            AlwaysConserves(q, cap, ops) <==> AlwaysConserves(q, cap, front) && Conserves(RunQueue(q, cap, ops))
  {
    hide Conserves, RunQueue;
    var n := |ops| - 1;
    assert ops[..|ops|] == ops;
    forall k | 0 <= k <= n
      ensures ops[..n][..k] == ops[..k]
    {
    }
  }

  lemma NeverSnoc(q: Queue, cap: nat, ops: seq<Op>)
    requires ops != []
    ensures var n := |ops| - 1;
            NeverLoses(q, cap, ops) <==> NeverLoses(q, cap, ops[..n]) && !Loses(RunQueue(q, cap, ops[..n]), cap, ops[n])
  {
    hide Loses, RunQueue;
    var n := |ops| - 1;
    forall k | 0 <= k < n
      ensures ops[..n][..k] == ops[..k] && ops[..n][k] == ops[k]
    {
    }
  }

  /** Nothing is lost at any point of a run exactly if no operation of it loses anything. */
  lemma {:induction false} QueueConserves(q: Queue, cap: nat, ops: seq<Op>)
    requires Conserves(q)
    ensures AlwaysConserves(q, cap, ops) <==> NeverLoses(q, cap, ops)
    ensures AlwaysConserves(q, cap, ops) ==> Conserves(RunQueue(q, cap, ops))
    decreases |ops|
  {
    hide Conserves, Loses, Next;
    if ops != [] {
      hide RunQueue, AlwaysConserves, NeverLoses;
      var n := |ops| - 1;
      QueueConserves(q, cap, ops[..n]);
      AlwaysSnoc(q, cap, ops);
      NeverSnoc(q, cap, ops);
      RunLast(q, cap, ops);
      if Conserves(RunQueue(q, cap, ops[..n])) {
        NextConserves(RunQueue(q, cap, ops[..n]), cap, ops[n]);
      }
    } else {
      assert forall k :: 0 <= k <= |ops| ==> ops[..k] == [];
    }
  }

  lemma RunLast(q: Queue, cap: nat, ops: seq<Op>)
    requires ops != []
    ensures var n := |ops| - 1; RunQueue(q, cap, ops) == Next(RunQueue(q, cap, ops[..n]), cap, ops[n])
  {
  }

  /** No run ever loses or gains a number of bytes. */
  lemma {:induction false} QueueKeepsCount(q: Queue, cap: nat, ops: seq<Op>)
    requires |q.added| == |q.removed| + |q.data|
    ensures var r := RunQueue(q, cap, ops); |r.added| == |r.removed| + |r.data|
    decreases |ops|
  {
    if ops != [] {
      QueueKeepsCount(q, cap, ops[..|ops| - 1]);
    }
  }

  /** The bytes of the operations that were not refused. */
  function Added(ops: seq<Op>, oks: seq<bool>): seq<byte>
    requires |ops| == |oks|
  {
    if ops == [] then []
    else
      var n := |ops| - 1;
      Added(ops[..n], oks[..n]) + if oks[n] then AddedBy(ops[n]) else []
  }

  /** The bytes the reads of a run return, end-of-file results left out. */
  function ReadBytes(q: Queue, cap: nat, ops: seq<Op>): seq<byte> {
    if ops == [] then []
    else
      var front, last := ops[..|ops| - 1], ops[|ops| - 1];
      ReadBytes(q, cap, front) + if last.Get? then Front(RunQueue(q, cap, front).data) else []
  }

  /** The first byte of a queue, if there is one. */
  function Front(data: seq<byte>): seq<byte> {
    if data == [] then [] else [data[0]]
  }

  /** If nothing is consumed unread, what leaves the queue is what the reads return. */
  lemma {:induction false} RemovedIsRead(q: Queue, cap: nat, ops: seq<Op>)
    requires |q.data| <= cap && Legal(ops) && forall k :: 0 <= k < |ops| ==> !ops[k].Discard?
    ensures RunQueue(q, cap, ops).removed == q.removed + ReadBytes(q, cap, ops)
    ensures |RunQueue(q, cap, ops).data| <= cap
    decreases |ops|
  {
    hide Next, Front;
    if ops != [] {
      var front, last := ops[..|ops| - 1], ops[|ops| - 1];
      RemovedIsRead(q, cap, front);
      var r := RunQueue(q, cap, front);
      NextRemoves(r, cap, last);
      AssocCat(q.removed, ReadBytes(q, cap, front), if last.Get? then Front(r.data) else []);
    }
  }

  lemma NextRemoves(q: Queue, cap: nat, op: Op)
    requires |q.data| <= cap && !op.Discard? && (op.Receive? ==> |op.bytes| <= op.n)
    ensures Next(q, cap, op).removed == q.removed + if op.Get? then Front(q.data) else []
    ensures |Next(q, cap, op).data| <= cap
  {
    hide Smeared;
    assert op.Get? ==> q.data[..Min(1, |q.data|)] == Front(q.data);
    assert !op.Get? ==> q.data[..0] == [] && q.removed + [] == q.removed;
  }

  ghost predicate IsView(b: BasicStreambuf, q: Queue)
    requires b.Valid()
    reads b, b.buffer
  {
    q.data == b.Data() && q.lead == b.gptr && q.end == b.epptr
  }

  /** The buffer doing any operations, and going on after refused ones, is that queue: across
      growth, compaction and failure. If no refused `prepare` loses anything, what came in is what
      went out followed by what is there; and what went out is what the reads returned, if nothing
      was consumed unread. */
  method Run(b: BasicStreambuf, ops: seq<Op>) returns (oks: seq<bool>, got: seq<byte>, ghost q: Queue)
    requires b.Valid() && Legal(ops)
    modifies b, b.buffer
    ensures b.Valid() && IsView(b, q) && |oks| == |ops|
    ensures var start := Queue(old(b.Data()), old(b.gptr), old(b.epptr), [], old(b.Data()));
            && q == RunQueue(start, b.maxSize, ops)
            && q.added == old(b.Data()) + Added(ops, oks)
            && (forall k :: 0 <= k < |ops| ==>
                  (oks[k] <==> !Refused(RunQueue(start, b.maxSize, ops[..k]), b.maxSize, ops[k])))
            && (NeverLoses(start, b.maxSize, ops) ==> old(b.Data()) + Added(ops, oks) == q.removed + b.Data())
            && got == ReadBytes(start, b.maxSize, ops)
            && ((forall k :: 0 <= k < |ops| ==> !ops[k].Discard?) ==> got == q.removed)
  {
    hide RunQueue, Next, Refused, NeverLoses, AlwaysConserves, AddedBy, Conserves, Front, ReadBytes, Added;
    oks, got := [], [];
    ghost var start := Queue(b.Data(), b.gptr, b.epptr, [], b.Data());
    q := start;
    Begin(start, b.maxSize, ops);
    for i := 0 to |ops|
      invariant b.Valid() && IsView(b, q) && (b.buffer == old(b.buffer) || fresh(b.buffer))
      invariant |oks| == i && q == RunQueue(start, b.maxSize, ops[..i])
      invariant q.added == old(b.Data()) + Added(ops[..i], oks) && got == ReadBytes(start, b.maxSize, ops[..i])
      invariant forall k :: 0 <= k < i ==>
                  (oks[k] <==> !Refused(RunQueue(start, b.maxSize, ops[..k]), b.maxSize, ops[k]))
    {
      RunStep(start, b.maxSize, ops, i, old(b.Data()), oks);
      var ok, read;
      ok, read, q := Do(b, ops[i], q);
      oks, got := oks + [ok], got + read;
    }
    assert ops[..|ops|] == ops;
    QueueConserves(start, b.maxSize, ops);
    Whole(q);
    if forall k :: 0 <= k < |ops| ==> !ops[k].Discard? {
      RemovedIsRead(start, b.maxSize, ops);
      assert [] + got == got;
    }
  }

  lemma Begin(start: Queue, cap: nat, ops: seq<Op>)
    requires start.removed == [] && start.added == start.data
    ensures RunQueue(start, cap, ops[..0]) == start && Conserves(start)
    ensures start.data + Added(ops[..0], []) == start.added && ReadBytes(start, cap, ops[..0]) == []
  {
  }

  lemma Whole(q: Queue)
    ensures Conserves(q) ==> q.added == q.removed + q.data
  {
  }

  lemma RunStep(start: Queue, cap: nat, ops: seq<Op>, i: nat, data: seq<byte>, oks: seq<bool>)
    requires i < |ops| && |oks| == i
    ensures RunQueue(start, cap, ops[..i + 1]) == Next(RunQueue(start, cap, ops[..i]), cap, ops[i])
    ensures forall ok :: data + Added(ops[..i + 1], oks + [ok])
                      == data + Added(ops[..i], oks) + if ok then AddedBy(ops[i]) else []
    ensures ReadBytes(start, cap, ops[..i + 1])
         == ReadBytes(start, cap, ops[..i]) + if ops[i].Get? then Front(RunQueue(start, cap, ops[..i]).data) else []
  {
    hide Next, AddedBy, Front;
    assert ops[..i + 1][..i] == ops[..i];
    forall ok
      ensures data + Added(ops[..i + 1], oks + [ok]) == data + Added(ops[..i], oks) + if ok then AddedBy(ops[i]) else []
    {
      assert (oks + [ok])[..i] == oks;
      AssocCat(data, Added(ops[..i], oks), if ok then AddedBy(ops[i]) else []);
    }
  }

  /** Prepare, write, commit. */
  method ReceiveInto(b: BasicStreambuf, n: nat, bytes: seq<byte>, ghost q: Queue) returns (ok: bool, ghost r: Queue)
    requires b.Valid() && |bytes| <= n && IsView(b, q)
    modifies b, b.buffer
    ensures b.Valid() && (b.buffer == old(b.buffer) || fresh(b.buffer))
    ensures ok <==> !Refused(q, b.maxSize, Receive(n, bytes))
    ensures r == Next(q, b.maxSize, Receive(n, bytes)) && IsView(b, r)
  {
    hide Smeared, Survives, Next, BasicStreambuf.Data;
    r := Next(q, b.maxSize, Receive(n, bytes));
    NextReceive(q, b.maxSize, n, bytes);
    ok := b.Prepare(n);
    if ok {
      b.WriteOutput(bytes);
      b.Commit(|bytes|);
    }
  }

  lemma NextReceive(q: Queue, cap: nat, n: nat, bytes: seq<byte>)
    ensures var r := Next(q, cap, Receive(n, bytes));
            if |q.data| + n > cap then
              r.data == Smeared(q.data, q.lead) && r.lead == q.lead && r.end == q.end
            else
              && r.data == q.data + bytes
              && (n <= Room(q) ==> r.lead == q.lead && r.end == q.end)
              && (n > Room(q) ==> r.lead == 0 && r.end == Max(q.end, |q.data| + n))
  {
    hide Smeared;
    assert q.data[0..] == q.data;
  }

  /** One operation; `read` is the byte a read returns, if any. */
  method Do(b: BasicStreambuf, op: Op, ghost q: Queue) returns (ok: bool, read: seq<byte>, ghost r: Queue)
    requires b.Valid() && IsView(b, q) && (op.Receive? ==> |op.bytes| <= op.n)
    modifies b, b.buffer
    ensures b.Valid() && (b.buffer == old(b.buffer) || fresh(b.buffer))
    ensures ok <==> !Refused(q, b.maxSize, op)
    ensures r == Next(q, b.maxSize, op) && IsView(b, r)
    ensures r.added == q.added + if ok then AddedBy(op) else []
    ensures read == if op.Get? then Front(q.data) else []
  {
    hide Smeared, Survives, BasicStreambuf.Data;
    ok, read, r := true, [], Next(q, b.maxSize, op);
    match op
    case Put(c) =>
      ok := b.Sputc(c);
    case Receive(n, bytes) =>
      ok, r := ReceiveInto(b, n, bytes, q);
    case Discard(n) =>
      b.Consume(n);
    case Get =>
      var c := b.Sbumpc();
      read := if c.Some? then [c.value] else [];
  }

  // A run that loses

  const LOSING_RUN: seq<Op> := [Put(1), Put(2), Put(3), Get, Receive(2, [])]

  /** A new buffer for three bytes, as a queue. */
  const EMPTY: Queue := Queue([], 0, 3, [], [])

  lemma LosingRun()
    ensures RunQueue(EMPTY, 3, LOSING_RUN[..4]) == Queue([2, 3], 1, 3, [1], [1, 2, 3])
    ensures RunQueue(EMPTY, 3, LOSING_RUN) == Queue([3, 3], 1, 3, [1], [1, 2, 3])
    ensures Loses(RunQueue(EMPTY, 3, LOSING_RUN[..4]), 3, LOSING_RUN[4])
    ensures forall k :: 0 <= k < 5 ==> (Refused(RunQueue(EMPTY, 3, LOSING_RUN[..k]), 3, LOSING_RUN[k]) <==> k == 4)
  {
    hide RunQueue, Next;
    var ops := LOSING_RUN;
    FirstPuts();
    RunLast(EMPTY, 3, ops[..4]);
    RunLast(EMPTY, 3, ops);
    assert ops[..4][..3] == ops[..3];
    ReadThenPrepare();
  }

  lemma FirstPuts()
    ensures RunQueue(EMPTY, 3, LOSING_RUN[..0]) == EMPTY
    ensures RunQueue(EMPTY, 3, LOSING_RUN[..1]) == Queue([1], 0, 3, [], [1])
    ensures RunQueue(EMPTY, 3, LOSING_RUN[..2]) == Queue([1, 2], 0, 3, [], [1, 2])
    ensures RunQueue(EMPTY, 3, LOSING_RUN[..3]) == Queue([1, 2, 3], 0, 3, [], [1, 2, 3])
  {
    hide RunQueue;
    var ops := LOSING_RUN;
    assert ops[..3][..2] == ops[..2] && ops[..2][..1] == ops[..1] && ops[..1][..0] == [];
    Begin(EMPTY, 3, ops);
    RunLast(EMPTY, 3, ops[..1]);
    RunLast(EMPTY, 3, ops[..2]);
    RunLast(EMPTY, 3, ops[..3]);
  }

  lemma ReadThenPrepare()
    ensures var q := Next(Queue([1, 2, 3], 0, 3, [], [1, 2, 3]), 3, Get);
            && q == Queue([2, 3], 1, 3, [1], [1, 2, 3]) && Loses(q, 3, Receive(2, []))
            && Next(q, 3, Receive(2, [])) == Queue([3, 3], 1, 3, [1], [1, 2, 3])
  {
    var q := Next(Queue([1, 2, 3], 0, 3, [], [1, 2, 3]), 3, Get);
    assert q.data[0] != q.data[1];
  }

  /** The loss, reached from a new buffer: three bytes put, one read, and then `prepare(2)` fails. The
      two bytes left were 2 and 3; now they are 3 and 3. */
  method FailedPrepareLosesData() returns (b: BasicStreambuf, oks: seq<bool>, got: seq<byte>)
    ensures fresh(b) && b.Valid() && b.maxSize == 3
    ensures oks == [true, true, true, true, false] && got == [1]
    ensures RunQueue(EMPTY, 3, LOSING_RUN[..4]).data == [2, 3]
    ensures b.Data() == RunQueue(EMPTY, 3, LOSING_RUN).data == [3, 3]
  {
    hide RunQueue, Next, Loses, NeverLoses, ReadBytes, Added;
    b := new BasicStreambuf(3);
    ghost var q;
    oks, got, q := Run(b, LOSING_RUN);
    LosingRun();
  }
}
