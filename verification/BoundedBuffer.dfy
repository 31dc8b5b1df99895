/** A request body read from a file through a buffer, bounded to the length that was announced, and
    rewound whenever the request is repeated. */
module BoundedBuffer {
  import opened Options
  import opened Chunks

  const BufferSize: nat := 65536

  datatype Origin = Begin | Current | End

  // ---- The cursor it stands for ----

  /** The announced part of the file; shorter if the file has shrunk since. */
  function View(file: seq<Byte>, limit: nat): seq<Byte> {
    file[..Min(limit, |file|)]
  }

  /** What `n` bytes of reading deliver from a position. */
  function Delivered(view: seq<Byte>, pos: nat, n: nat): seq<Byte> {
    if pos >= |view| then [] else view[pos..Min(pos + n, |view|)]
  }

  function Target(limit: nat, pos: nat, off: int, origin: Origin): int {
    match origin
    case Begin => off
    case Current => pos + off
    case End => limit + off
  }

  /** The operations a caller may perform. */
  datatype Op = Peek | Read(n: nat) | Seek(off: int, origin: Origin, input: bool)

  datatype Answer = Bytes(data: seq<Byte>) | Told(pos: int)

  function CursorAnswer(view: seq<Byte>, limit: nat, pos: nat, op: Op): Answer {
    match op
    case Peek => Bytes(Delivered(view, pos, 1))
    case Read(n) => Bytes(Delivered(view, pos, n))
    case Seek(off, origin, input) =>
      var target := Target(limit, pos, off, origin);
      if input && 0 <= target <= limit then Told(target) else Told(-1)
  }

  function CursorAfter(view: seq<Byte>, limit: nat, pos: nat, op: Op): nat {
    match op
    case Peek => pos
    case Read(n) => pos + |Delivered(view, pos, n)|
    case Seek(off, origin, input) =>
      var target := Target(limit, pos, off, origin);
      if input && 0 <= target <= limit then target else pos
  }

  function CursorRun(view: seq<Byte>, limit: nat, pos: nat, ops: seq<Op>): seq<Answer>
    decreases |ops|
  {
    if ops == [] then []
    else
      [CursorAnswer(view, limit, pos, ops[0])]
      + CursorRun(view, limit, CursorAfter(view, limit, pos, ops[0]), ops[1..])
  }

  lemma DeliveredGrows(view: seq<Byte>, pos: nat, n: nat, more: nat)
    requires pos + n + more <= |view|
    ensures Delivered(view, pos, n) + view[pos + n..pos + n + more] == Delivered(view, pos, n + more)
  {}

  /** Reading delivers the file's bytes from the position on, as far as asked for, announced and there. */
  lemma DeliveredIs(file: seq<Byte>, limit: nat, pos: nat, n: nat)
    ensures var have := if limit < |file| then limit else |file|;
            Delivered(View(file, limit), pos, n) == if pos >= have then [] else file[pos..Min(pos + n, have)]
  {}

  // ---- The buffer ----

  class BoundedFileBuf {
    const file: seq<Byte>
    const limit: nat
    const buffer: array<Byte>
    var at: nat            // the position of the file underneath
    var remaining: int     // bytes of the limit not yet taken from the file
    var area: bool         // whether there is a get area: buffer[next..end]
    var next: nat
    var end: nat

    predicate Valid()
      reads this, buffer
    {
      && buffer.Length == BufferSize
      && 0 <= remaining <= limit && at == limit - remaining
      && (area ==> next <= end <= buffer.Length && end - next <= at <= |file|
                   && forall i | next <= i < end :: buffer[i] == file[at - end + i])
    }

    function Unread(): int
      reads this
    {
      if area then end - next else 0
    }

    /** Where the caller is. */
    function Position(): (p: nat)
      requires Valid()
      reads this, buffer
      ensures p <= limit
    {
      limit - remaining - Unread()
    }

    constructor (file: seq<Byte>, limit: nat)
      ensures Valid() && fresh(buffer) && this.file == file && this.limit == limit && Position() == 0
    {
      this.file, this.limit, this.buffer := file, limit, new Byte[BufferSize];
      at, remaining, area, next, end := 0, limit, false, 0, 0;
    }

    /** Makes the next byte available, refilling the buffer if it is used up. */
    method Underflow() returns (c: Option<Byte>)
      requires Valid()
      modifies this, buffer
      ensures Valid() && Position() == old(Position())
      ensures c == if Position() < |View(file, limit)| then Some(View(file, limit)[Position()]) else None
      ensures c.Some? ==> area && next < end
    {
      if area && next < end { return Some(buffer[next]); }
      if remaining <= 0 { return None; }
      var want := Min(buffer.Length, remaining);
      var got := Min(want, Max(|file| - at, 0));
      if got <= 0 { return None; }
      forall i | 0 <= i < got { buffer[i] := file[at + i]; }
      remaining := remaining - got;
      at := at + got;
      area, next, end := true, 0, got;
      c := Some(buffer[next]);
    }

    /** Takes up to `n` bytes, buffer by buffer. */
    method ReadBytes(n: nat) returns (data: seq<Byte>)
      requires Valid()
      modifies this, buffer
      ensures Valid()
      ensures data == Delivered(View(file, limit), old(Position()), n)
      ensures Position() == old(Position()) + |data|
    {
      data := [];
      ghost var view, pos := View(file, limit), Position();
      while |data| < n
        invariant Valid() && |data| <= n && Position() == pos + |data|
        invariant data == Delivered(view, pos, |data|)
        decreases n - |data|
      {
        var c := Underflow();
        if c == None { return; }
        var some := TakeBuffered(n - |data|);
        DeliveredGrows(view, pos, |data|, |some|);
        data := data + some;
      }
    }

    /** Takes what is buffered, up to `n` bytes. */
    method TakeBuffered(n: nat) returns (some: seq<Byte>)
      requires Valid() && area && next < end && n > 0
      modifies this`next
      ensures Valid() && 0 < |some| <= n && Position() == old(Position()) + |some|
      ensures Position() <= |View(file, limit)| && some == View(file, limit)[old(Position())..Position()]
    {
      var take := Min(n, end - next);
      some := buffer[next..next + take];
      ghost var from := Position();
      assert forall k | 0 <= k < take :: some[k] == View(file, limit)[from + k];
      next := next + take;
    }

    /** Moves the cursor, or reports -1 and leaves it. A successful seek drops the get area. */
    method SeekOff(off: int, origin: Origin, input: bool) returns (pos: int)
      requires Valid()
      modifies this
      ensures Valid()
      ensures var target := match origin
                            case Begin => off
                            case Current => old(Position()) + off
                            case End => limit + off;
              if input && 0 <= target <= limit then pos == target == Position()
              else pos == -1 && Position() == old(Position())
      ensures Told(pos) == CursorAnswer(View(file, limit), limit, old(Position()), Seek(off, origin, input))
      ensures Position() == CursorAfter(View(file, limit), limit, old(Position()), Seek(off, origin, input))
    {
      if !input { return -1; }
      var consumed := limit - remaining;
      var unread := if area then end - next else 0;
      var current := consumed - unread;
      var target := off;
      if origin == Current { target := current + off; }
      else if origin == End { target := limit + off; }
      if target < 0 || target > limit { return -1; }
      at := target;
      remaining := limit - target;
      area := false;
      return target;
    }

    method Perform(op: Op) returns (a: Answer)
      requires Valid()
      modifies this, buffer
      ensures Valid()
      ensures a == CursorAnswer(View(file, limit), limit, old(Position()), op)
      ensures Position() == CursorAfter(View(file, limit), limit, old(Position()), op)
    {
      match op {
        case Peek =>
          var c := Underflow();
          a := Bytes(if c.Some? then [c.value] else []);
        case Read(n) =>
          var data := ReadBytes(n);
          a := Bytes(data);
        case Seek(off, origin, input) =>
          var pos := SeekOff(off, origin, input);
          a := Told(pos);
      }
    }
  }

  /** Refinement over whole runs: for every sequence of operations the buffer answers as the plain cursor
      over the announced bytes does. */
  method Drive(b: BoundedFileBuf, ops: seq<Op>) returns (answers: seq<Answer>)
    requires b.Valid()
    modifies b, b.buffer
    ensures b.Valid() && answers == CursorRun(View(b.file, b.limit), b.limit, old(b.Position()), ops)
  {
    answers := [];
    ghost var view, pos := View(b.file, b.limit), b.Position();
    for i := 0 to |ops|
      invariant b.Valid()
      invariant answers + CursorRun(view, b.limit, b.Position(), ops[i..]) == CursorRun(view, b.limit, pos, ops)
    {
      var a := b.Perform(ops[i]);
      assert ops[i..][1..] == ops[i + 1..];
      answers := answers + [a];
    }
    assert ops[|ops|..] == [];
  }

  /** A repeated request sends the same bytes: the announced ones the file still has. */
  method SendTwice(b: BoundedFileBuf) returns (first: seq<Byte>, again: seq<Byte>)
    requires b.Valid() && b.Position() == 0
    modifies b, b.buffer
    ensures first == View(b.file, b.limit) && again == first
  {
    first := b.ReadBytes(b.limit);
    var pos := b.SeekOff(0, Begin, true);
    again := b.ReadBytes(b.limit);
  }
}
