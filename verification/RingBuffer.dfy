/** The ring buffer of a TCP session: bytes are written, then read, and their room is used
    again only once they are released. */
module RingBuffer {
  import opened ByteOrder

  /** A stretch of the buffer, as an I/O vector points at it. */
  datatype Region = Region(base: nat, len: nat)

  /** The bytes in a list of regions, one after the other. */
  function Gather(data: Bytes, iov: seq<Region>): Bytes {
    if iov == [] || iov[0].base + iov[0].len > |data| then [] else
      Stretch(data, iov[0].base, iov[0].len) + Gather(data, iov[1..])
  }

  function Stretch(data: Bytes, from: nat, n: nat): (r: Bytes)
    requires from + n <= |data|
    ensures |r| == n
  {
    data[from..from + n]
  }

  ghost predicate Inside(iov: seq<Region>, size: nat) {
    forall i | 0 <= i < |iov| :: iov[i].base + iov[i].len <= size
  }

  function Total(iov: seq<Region>): nat {
    if iov == [] then 0 else iov[0].len + Total(iov[1..])
  }

  /** Where the byte `j` of a list of regions is. */
  function Position(iov: seq<Region>, j: nat): nat
    requires j < Total(iov)
  {
    if j < iov[0].len then iov[0].base + j else Position(iov[1..], j - iov[0].len)
  }

  /** A position past the end starts over. */
  function Wrap(x: nat, size: nat): nat {
    if x < size then x else if x < 2 * size then x - size else 0
  }

  lemma ModWraps(x: nat, size: nat)
    requires x < 2 * size
    ensures x % size == Wrap(x, size) < size
  {
    if x >= size {
      ModOnce(x - size, size);
    }
  }

  lemma ModOnce(r: nat, size: nat)
    requires r < size
    ensures (size + r) % size == r
  {
  }

  lemma WrapAgain(a: nat, b: nat, size: nat)
    requires a < 2 * size && a + b < 2 * size
    ensures Wrap(Wrap(a, size) + b, size) == Wrap(a + b, size) < size
  {
  }

  /** The fields of a buffer, where its oldest byte is, and all that was ever written. The
      last `use` bytes written are still in the buffer, the last `rda` of them unread. */
  datatype Ring = Ring(size: nat, rp: nat, wp: nat, rda: nat, use: nat, start: nat, written: Bytes)

  /** Every byte not released is in its place. */
  ghost predicate Stored(data: Bytes, r: Ring) {
    forall k | 0 <= k < r.use :: InPlace(data, r, k)
  }

  predicate InPlace(data: Bytes, r: Ring, k: int) {
    0 <= k < r.use <= |r.written| && Wrap(r.start + k, r.size) < |data|
    && data[Wrap(r.start + k, r.size)] == r.written[|r.written| - r.use + k]
  }

  ghost predicate Holds(data: Bytes, r: Ring) {
    var used := r.use;
    && r.rda <= used <= r.size == |data| && used <= |r.written| && Stored(data, r)
    && r.start == Wrap(r.start, r.size)
    && r.rp == Wrap(r.start + (used - r.rda), r.size) && r.wp == Wrap(r.start + used, r.size)
  }

  /** Read so far, and written but not read yet. */
  function Taken(r: Ring): Bytes
    requires r.rda <= |r.written|
  {
    r.written[..|r.written| - r.rda]
  }

  function Unread(r: Ring): Bytes
    requires r.rda <= |r.written|
  {
    r.written[|r.written| - r.rda..]
  }

  lemma StoredAt(data: Bytes, r: Ring, k: nat)
    requires Holds(data, r) && k < r.use
    ensures Wrap(r.start + k, r.size) < r.size && data[Wrap(r.start + k, r.size)] == r.written[|r.written| - r.use + k]
  {
    assert InPlace(data, r, k);
  }

  /** Regions of `n` bytes that follow one another around the ring from `from` on. */
  ghost predicate Leads(iov: seq<Region>, from: nat, size: nat, n: nat) {
    Total(iov) == n && forall j | 0 <= j < n :: Position(iov, j) == Wrap(from + j, size)
  }

  lemma NoRoom(from: nat, size: nat)
    ensures Leads([], from, size, 0)
  {
  }

  lemma RoomOnce(from: nat, n: nat, size: nat)
    requires from + n <= size
    ensures Leads([Region(from, n)], from, size, n)
  {
    assert [Region(from, n)][1..] == [];
  }

  lemma RoomTwice(from: nat, n: nat, size: nat)
    requires from < size < from + n && n <= size
    ensures Leads([Region(from, size - from), Region(0, n - (size - from))], from, size, n)
  {
    var iov := [Region(from, size - from), Region(0, n - (size - from))];
    RoomOnce(0, n - (size - from), size);
    assert iov[1..] == [Region(0, n - (size - from))];
    forall j | 0 <= j < n ensures Position(iov, j) == Wrap(from + j, size) {
      if j >= size - from {
        assert Position(iov, j) == Position(iov[1..], j - (size - from)) == Wrap(j - (size - from), size);
      }
    }
  }

  // ----- reading -----

  /** The unread bytes from the reading position on, around the end if need be. */
  lemma UnreadAt(data: Bytes, r: Ring, k: nat)
    requires Holds(data, r) && k < r.rda
    ensures r.rp < r.size && data[Wrap(r.rp + k, r.size)] == Unread(r)[k]
  {
    StoredAt(data, r, r.use - r.rda + k);
    hide Stored;
    WrapAgain(r.start + (r.use - r.rda), k, r.size);
  }

  lemma OneRegion(data: Bytes, from: nat, n: nat)
    requires from + n <= |data|
    ensures Gather(data, [Region(from, n)]) == Stretch(data, from, n)
  {
    var iov := [Region(from, n)];
    assert Gather(data, iov[1..]) == [];
  }

  lemma TwoRegions(data: Bytes, from: nat, n: nat, m: nat)
    requires from + n <= |data| && m <= |data|
    ensures Gather(data, [Region(from, n), Region(0, m)]) == Stretch(data, from, n) + Stretch(data, 0, m)
  {
    var iov := [Region(from, n), Region(0, m)];
    assert iov[1..] == [Region(0, m)];
    OneRegion(data, 0, m);
  }

  lemma ReadsUnread(data: Bytes, r: Ring)
    requires Holds(data, r) && r.rp + r.rda <= r.size
    ensures Stretch(data, r.rp, r.rda) == Unread(r)
  {
    HoldsBounds(data, r);
    hide Holds;
    forall k: nat | k < r.rda ensures Stretch(data, r.rp, r.rda)[k] == Unread(r)[k] {
      UnreadAt(data, r, k);
    }
  }

  lemma ReadsUnreadAround(data: Bytes, r: Ring)
    requires Holds(data, r) && r.rp <= r.size < r.rp + r.rda
    ensures Stretch(data, r.rp, r.size - r.rp) + Stretch(data, 0, r.rda - (r.size - r.rp)) == Unread(r)
  {
    HoldsBounds(data, r);
    hide Holds;
    var s := Stretch(data, r.rp, r.size - r.rp) + Stretch(data, 0, r.rda - (r.size - r.rp));
    forall k: nat | k < r.rda ensures s[k] == Unread(r)[k] {
      UnreadAt(data, r, k);
    }
  }

  // ----- the operations on the whole buffer -----

  function ReadOf(r: Ring, k: nat): Ring
    requires r.size > 0 && k <= r.rda
  {
    r.(rp := (r.rp + k) % r.size, rda := r.rda - k)
  }

  lemma HoldsBounds(data: Bytes, r: Ring)
    requires Holds(data, r)
    ensures r.rda <= r.use <= r.size == |data| && r.use <= |r.written|
  {
    hide Stored;
  }

  lemma ReadStored(data: Bytes, r: Ring, k: nat)
    requires Stored(data, r) && r.size > 0 && k <= r.rda
    ensures Stored(data, ReadOf(r, k))
  {
    var t := ReadOf(r, k);
    forall i | 0 <= i < t.use ensures InPlace(data, t, i) {
      assert InPlace(data, r, i);
    }
  }

  lemma ReadHolds(data: Bytes, r: Ring, k: nat)
    requires Holds(data, r) && r.size > 0 && k <= r.rda
    ensures Holds(data, ReadOf(r, k)) && Taken(ReadOf(r, k)) == Taken(r) + Unread(r)[..k]
  {
    hide Stored;
    var n := r.use - r.rda;
    WrapAgain(r.start + n, 0, r.size);
    ModWraps(r.rp + k, r.size);
    WrapAgain(r.start + n, k, r.size);
    ReadStored(data, r, k);
  }

  /** An empty buffer starts over. */
  function ReleasedOf(r: Ring, k: nat): Ring
    requires k <= r.use
  {
    var t := r.(use := r.use - k, start := Wrap(r.start + k, r.size));
    if t.use == 0 then t.(rp := 0, wp := 0, start := 0) else t
  }

  lemma ReleaseHolds(data: Bytes, r: Ring, k: nat)
    requires Holds(data, r) && k <= r.use - r.rda
    ensures Holds(data, ReleasedOf(r, k))
  {
    hide Stored;
    var t := ReleasedOf(r, k);
    if t.use > 0 {
      WrapAgain(r.start, 0, r.size);
      WrapAgain(r.start + k, 0, r.size);
      WrapAgain(r.start + k, r.use - r.rda - k, r.size);
      WrapAgain(r.start + k, r.use - k, r.size);
    }
    ReleaseStored(data, r, k);
  }

  lemma ReleaseStored(data: Bytes, r: Ring, k: nat)
    requires Holds(data, r) && k <= r.use
    ensures Stored(data, ReleasedOf(r, k))
  {
    var t := ReleasedOf(r, k);
    forall i | 0 <= i < t.use ensures InPlace(data, t, i) {
      StoredAt(data, r, k + i);
      WrapAgain(r.start + k, i, r.size);
    }
  }

  /** The room never overlaps what is not released, read or not: byte `j` of it is at
      another position than byte `k` of that. */
  lemma RoomApart(data: Bytes, r: Ring, k: nat, j: nat)
    requires Holds(data, r) && k < r.use && j < r.size - r.use
    ensures Wrap(r.start + k, r.size) != Wrap(r.wp + j, r.size)
  {
    hide Stored;
    WrapAgain(r.start + r.use, j, r.size);
  }

  lemma FillHolds(data: Bytes, r: Ring, j: nat, b: Byte)
    requires Holds(data, r) && j < r.size - r.use
    ensures Wrap(r.wp + j, r.size) < r.size && Holds(data[Wrap(r.wp + j, r.size) := b], r)
  {
    hide Stored;
    WrapAgain(r.start + r.use, j, r.size);
    FillStored(data, r, j, b);
  }

  lemma FillStored(data: Bytes, r: Ring, j: nat, b: Byte)
    requires Holds(data, r) && j < r.size - r.use && Wrap(r.wp + j, r.size) < r.size
    ensures Stored(data[Wrap(r.wp + j, r.size) := b], r)
  {
    var d := data[Wrap(r.wp + j, r.size) := b];
    forall k | 0 <= k < r.use ensures InPlace(d, r, k) {
      assert InPlace(data, r, k);
      RoomApart(data, r, k, j);
    }
  }

  /** The room from `wp` on begins with `more`. */
  ghost predicate Filled(data: Bytes, size: nat, wp: nat, more: Bytes) {
    forall j | 0 <= j < |more| :: InRoom(data, size, wp, more, j)
  }

  predicate InRoom(data: Bytes, size: nat, wp: nat, more: Bytes, j: int) {
    0 <= j < |more| && Wrap(wp + j, size) < |data| && data[Wrap(wp + j, size)] == more[j]
  }

  lemma FilledNext(data: Bytes, r: Ring, more: Bytes, b: Byte)
    requires Holds(data, r) && |more| < r.size - r.use && Filled(data, r.size, r.wp, more)
    requires Wrap(r.wp + |more|, r.size) < r.size
    ensures Filled(data[Wrap(r.wp + |more|, r.size) := b], r.size, r.wp, more + [b])
  {
    hide Stored;
    var d, m := data[Wrap(r.wp + |more|, r.size) := b], more + [b];
    forall j | 0 <= j < |m| ensures InRoom(d, r.size, r.wp, m, j) {
      if j < |more| {
        assert InRoom(data, r.size, r.wp, more, j);
        WrapsApart(r.start + r.use, j, |more|, r.size);
      }
    }
  }

  lemma WrapsApart(a: nat, j: nat, k: nat, size: nat)
    requires a < 2 * size && j < k && k < size && a + k < 2 * size
    ensures Wrap(Wrap(a, size) + j, size) != Wrap(Wrap(a, size) + k, size)
  {
  }

  function WrittenOf(r: Ring, more: Bytes): Ring
    requires r.size > 0
  {
    r.(wp := (r.wp + |more|) % r.size, use := r.use + |more|, rda := r.rda + |more|, written := r.written + more)
  }

  lemma WriteHolds(data: Bytes, r: Ring, more: Bytes)
    requires Holds(data, r) && r.size > 0 && r.use + |more| <= r.size && Filled(data, r.size, r.wp, more)
    ensures Holds(data, WrittenOf(r, more)) && Taken(WrittenOf(r, more)) == Taken(r)
  {
    hide Stored, Filled;
    WrapAgain(r.start, 0, r.size);
    WrapAgain(r.start + r.use, 0, r.size);
    ModWraps(r.wp + |more|, r.size);
    WrapAgain(r.start + r.use, |more|, r.size);
    WriteStored(data, r, more);
  }

  lemma WriteStored(data: Bytes, r: Ring, more: Bytes)
    requires Holds(data, r) && r.size > 0 && r.use + |more| <= r.size && Filled(data, r.size, r.wp, more)
    ensures Stored(data, WrittenOf(r, more))
  {
    hide Stored, Filled;
    var t := WrittenOf(r, more);
    forall k | 0 <= k < t.use ensures InPlace(data, t, k) {
      if k < r.use { StoredAt(data, r, k); } else { FilledAt(data, r, more, k - r.use); }
    }
    StoredFrom(data, t);
  }

  lemma FilledAt(data: Bytes, r: Ring, more: Bytes, j: nat)
    requires Holds(data, r) && r.use + |more| <= r.size && Filled(data, r.size, r.wp, more) && j < |more|
    ensures Wrap(r.start + (r.use + j), r.size) < r.size && data[Wrap(r.start + (r.use + j), r.size)] == more[j]
  {
    hide Stored;
    assert r.size == |data|;
    assert InRoom(data, r.size, r.wp, more, j);
    WrapAgain(r.start + r.use, j, r.size);
  }

  lemma StoredFrom(data: Bytes, r: Ring)
    requires forall k | 0 <= k < r.use :: InPlace(data, r, k)
    ensures Stored(data, r)
  {
  }

  class Buffer {
    const maxSize: nat
    const data: array<Byte>
    var rp: nat
    var wp: nat
    var rdaSize: nat
    var useSize: nat
    ghost var ring: Ring

    ghost predicate Valid()
      reads this, data
    {
      var r, d := ring, data[..];
      Holds(d, r) && r.size == maxSize && r.rp == rp && r.wp == wp && r.rda == rdaSize && r.use == useSize
    }

    constructor (size: nat)
      ensures Valid() && fresh(data) && ring == Ring(size, 0, 0, 0, 0, 0, [])
    {
      maxSize := size;
      data := new Byte[size](_ => 0);
      rp, wp, rdaSize, useSize := 0, 0, 0, 0;
      ring := Ring(size, 0, 0, 0, 0, 0, []);
    }

    /** Where the unread bytes are. */
    method Reading() returns (iov: seq<Region>)
      requires Valid()
      ensures |iov| == 2 <==> rdaSize > 0 && rp + rdaSize > maxSize
      ensures iov != [] ==> iov[0].len == if |iov| == 2 then maxSize - rp else rdaSize
      ensures |iov| <= 2 && (iov == [] <==> rdaSize == 0) && Inside(iov, data.Length) && ring.rda <= |ring.written| && Gather(data[..], iov) == Unread(ring)
    {
      hide Stored, Gather, Stretch;
      HoldsBounds(data[..], ring);
      if rdaSize == 0 {
        NothingUnread(data[..], ring);
        return [];
      }
      ghost var d: Bytes := data[..];
      PointerInside(d, ring);
      hide Holds;
      var upper := maxSize - rp;
      if rdaSize <= upper {
        iov := [Region(rp, rdaSize)];
        ReadsUnread(d, ring);
        OneRegion(d, rp, rdaSize);
      } else {
        iov := [Region(rp, upper), Region(0, rdaSize - upper)];
        ReadsUnreadAround(d, ring);
        TwoRegions(d, rp, upper, rdaSize - upper);
      }
    }

    /** `size` of the unread bytes were read. */
    method ReadFinish(size: nat)
      requires Valid() && maxSize > 0 && size <= rdaSize
      modifies this
      ensures Valid() && old(ring).size > 0 && size <= old(ring).rda <= |old(ring).written| && ring == ReadOf(old(ring), size)
      ensures ring.rda <= |ring.written| && Taken(ring) == Taken(old(ring)) + Unread(old(ring))[..size]
    {
      hide Stored, Taken, Unread;
      ReadHolds(data[..], ring, size);
      ring := ReadOf(ring, size);
      rp := (rp + size) % maxSize;
      rdaSize := rdaSize - size;
    }

    /** `size` of the bytes read will not be needed again. */
    method ReadRelease(size: nat)
      requires Valid() && size <= useSize - rdaSize
      modifies this
      ensures Valid() && size <= old(ring).use && ring == ReleasedOf(old(ring), size)
    {
      hide Stored;
      ReleaseHolds(data[..], ring, size);
      ring := ReleasedOf(ring, size);
      useSize := useSize - size;
      if useSize == 0 {
        rp := 0;
        wp := 0;
      }
    }

    /** Where there is room to write. */
    method Writing() returns (iov: seq<Region>)
      requires Valid()
      ensures Leads(iov, wp, maxSize, maxSize - useSize) && (iov == [] <==> useSize == maxSize)
    {
      hide Stored, Leads;
      if useSize == maxSize {
        NoRoom(wp, maxSize);
        return [];
      }
      PointerInside(data[..], ring);
      hide Holds;
      var upper, space := maxSize - wp, maxSize - useSize;
      if space <= upper {
        iov := [Region(wp, space)];
        RoomOnce(wp, space, maxSize);
      } else {
        iov := [Region(wp, upper), Region(0, space - upper)];
        RoomTwice(wp, space, maxSize);
      }
    }

    /** The system puts bytes into the room, in the order of its regions. */
    method Fill(iov: seq<Region>, bytes: Bytes)
      requires Valid() && Leads(iov, wp, maxSize, maxSize - useSize) && |bytes| <= maxSize - useSize
      modifies data
      ensures Valid() && Filled(data[..], maxSize, wp, bytes)
    {
      hide Holds, Filled, Position, Total, Wrap;
      FilledNone(data[..], maxSize, wp);
      for k := 0 to |bytes|
        invariant Valid()
        invariant Filled(data[..], maxSize, wp, bytes[..k])
      {
        ghost var d: Bytes := data[..];
        HoldsBounds(d, ring);
        FillHolds(d, ring, k, bytes[k]);
        FilledNext(d, ring, bytes[..k], bytes[k]);
        data[Position(iov, k)] := bytes[k];
        assert data[..] == d[Wrap(wp + k, maxSize) := bytes[k]];
        assert bytes[..k + 1] == bytes[..k] + [bytes[k]];
      }
      assert bytes[..|bytes|] == bytes;
    }

    /** `size` bytes were written: those the room begins with. */
    method WriteFinish(size: nat, ghost more: Bytes)
      requires Valid() && maxSize > 0 && size == |more| <= maxSize - useSize && Filled(data[..], maxSize, wp, more)
      modifies this
      ensures Valid() && old(ring).size > 0 && ring == WrittenOf(old(ring), more)
    {
      hide Stored, Filled;
      WriteHolds(data[..], ring, more);
      ring := WrittenOf(ring, more);
      wp := (wp + size) % maxSize;
      useSize := useSize + size;
      rdaSize := rdaSize + size;
    }

    /** The counts of the fields are those of the ring. */
    ghost predicate Fields()
      reads this
    {
      var n := useSize;
      ring.rda == rdaSize <= n == ring.use <= maxSize == ring.size && ring.use <= |ring.written|
    }

    lemma Counts()
      requires Valid()
      ensures Fields()
    {
      hide Stored;
    }
  }

  lemma FilledNone(data: Bytes, size: nat, wp: nat)
    ensures Filled(data, size, wp, [])
  {
  }

  lemma NothingUnread(data: Bytes, r: Ring)
    requires Holds(data, r) && r.rda == 0
    ensures Unread(r) == [] && Gather(data, []) == []
  {
  }

  lemma PointerInside(data: Bytes, r: Ring)
    requires Holds(data, r)
    ensures (r.rp < r.size && r.wp < r.size) || r.size == 0
  {
    hide Stored;
    if r.size > 0 {
      WrapAgain(r.start + (r.use - r.rda), 0, r.size);
      WrapAgain(r.start + r.use, 0, r.size);
    }
  }

  /** The two pointers keep their distance, through the reset at empty as well. */
  lemma PointersKeepDistance(data: Bytes, r: Ring)
    requires Holds(data, r) && r.size > 0
    ensures r.wp == (r.rp + r.rda) % r.size
  {
    hide Stored;
    var n := r.use - r.rda;
    WrapAgain(r.start + n, 0, r.size);
    ModWraps(r.rp + r.rda, r.size);
    WrapAgain(r.start + n, r.rda, r.size);
  }

  // ----- whole runs -----

  datatype Op = Write(bytes: Bytes) | Read(n: nat) | Release(n: nat)

  /** A plain queue in the place of the buffer: the unread bytes, and how many are held. */
  datatype Queue = Queue(unread: Bytes, held: nat)

  /** What does not fit the queue's sizes is not done. */
  predicate Sized(size: nat, q: Queue, op: Op) {
    match op
    case Write(b) => |b| + |q.unread| + q.held <= size
    case Read(n) => n <= |q.unread|
    case Release(n) => n <= q.held
  }

  function After(size: nat, q: Queue, op: Op): Queue {
    if !Sized(size, q, op) then q else
      match op
      case Write(b) => Queue(q.unread + b, q.held)
      case Read(n) => Queue(q.unread[n..], q.held + n)
      case Release(n) => Queue(q.unread, q.held - n)
  }

  function Out(size: nat, q: Queue, op: Op): Bytes {
    if op.Read? && Sized(size, q, op) then q.unread[..op.n] else []
  }

  function In(size: nat, q: Queue, op: Op): Bytes {
    if op.Write? && Sized(size, q, op) then op.bytes else []
  }

  /** What the reads of a run give, and what its writes put in. */
  function Fifo(size: nat, q: Queue, ops: seq<Op>): Bytes
    decreases |ops|
  {
    if ops == [] then [] else Out(size, q, ops[0]) + Fifo(size, After(size, q, ops[0]), ops[1..])
  }

  function PutIn(size: nat, q: Queue, ops: seq<Op>): Bytes
    decreases |ops|
  {
    if ops == [] then [] else In(size, q, ops[0]) + PutIn(size, After(size, q, ops[0]), ops[1..])
  }

  lemma OutAndIn(size: nat, q: Queue, op: Op)
    ensures Out(size, q, op) + After(size, q, op).unread == q.unread + In(size, q, op)
  {
  }

  /** Bytes come out in the order they were put in. */
  lemma {:induction false} FifoInOrder(size: nat, q: Queue, ops: seq<Op>)
    ensures Fifo(size, q, ops) <= q.unread + PutIn(size, q, ops)
    decreases |ops|
  {
    if ops != [] {
      OutAndIn(size, q, ops[0]);
      hide Out, In, After;
      var q', rest := After(size, q, ops[0]), ops[1..];
      FifoInOrder(size, q', rest);
      Shift(Out(size, q, ops[0]), q'.unread, q.unread, In(size, q, ops[0]), Fifo(size, q', rest), PutIn(size, q', rest));
    }
  }

  lemma Shift(out: Bytes, u': Bytes, u: Bytes, put: Bytes, f: Bytes, more: Bytes)
    requires out + u' == u + put && f <= u' + more
    ensures out + f <= u + (put + more)
  {
    assert u + (put + more) == u + put + more == out + (u' + more);
  }

  /** One operation on a buffer is that operation on the plain queue. */
  method Do(b: Buffer, op: Op) returns (out: Bytes)
    requires b.Valid() && b.Fields()
    modifies b, b.data
    ensures b.Valid() && b.Fields() && old(b.Fields())
    ensures var q := QueueOf(old(b.ring)); out == Out(b.maxSize, q, op) && QueueOf(b.ring) == After(b.maxSize, q, op)
  {
    hide Gather, Holds, Leads, Filled;
    out := [];
    ghost var u: Bytes := Unread(b.ring);
    match op {
      case Write(bytes) =>
        if |bytes| <= b.maxSize - b.useSize && bytes != [] {
          var iov := b.Writing();
          b.Fill(iov, bytes);
          b.WriteFinish(|bytes|, bytes);
          WrittenUnread(old(b.ring), bytes);
        } else {
          assert u + [] == u;
        }
      case Read(n) =>
        if 0 < n <= b.rdaSize {
          var iov := b.Reading();
          var all := Gather(b.data[..], iov);
          out := all[..n];
          b.ReadFinish(n);
          ReadUnread(old(b.ring), n);
        } else {
          assert u[..0] == [] && u[0..] == u;
        }
      case Release(n) =>
        if n <= b.useSize - b.rdaSize {
          b.ReadRelease(n);
          assert Unread(b.ring) == u;
        }
    }
    b.Counts();
  }

  lemma WrittenUnread(r: Ring, more: Bytes)
    requires r.rda <= |r.written| && r.size > 0
    ensures Unread(WrittenOf(r, more)) == Unread(r) + more
  {
  }

  lemma ReadUnread(r: Ring, k: nat)
    requires k <= r.rda <= |r.written| && r.size > 0
    ensures Unread(ReadOf(r, k)) == Unread(r)[k..]
  {
  }

  /** The queue a buffer stands for. */
  ghost function QueueOf(r: Ring): Queue
    requires r.rda <= r.use <= |r.written|
  {
    Queue(Unread(r), r.use - r.rda)
  }

  lemma FifoNext(size: nat, q: Queue, ops: seq<Op>, i: nat, output: Bytes, all: Bytes)
    requires i < |ops| && output + Fifo(size, q, ops[i..]) == all
    ensures output + Out(size, q, ops[i]) + Fifo(size, After(size, q, ops[i]), ops[i + 1..]) == all
  {
    hide Out, After;
    var o, rest := Out(size, q, ops[i]), Fifo(size, After(size, q, ops[i]), ops[i + 1..]);
    assert ops[i..][0] == ops[i] && ops[i..][1..] == ops[i + 1..];
    assert output + (o + rest) == output + o + rest;
  }

  lemma FifoEnds(size: nat, ops: seq<Op>, q: Queue, output: Bytes)
    ensures [] + Fifo(size, Queue([], 0), ops[0..]) == Fifo(size, Queue([], 0), ops)
    ensures output + Fifo(size, q, ops[|ops|..]) == output
    ensures Fifo(size, Queue([], 0), ops) <= PutIn(size, Queue([], 0), ops)
  {
    assert ops[0..] == ops && ops[|ops|..] == [];
    FifoInOrder(size, Queue([], 0), ops);
    assert [] + PutIn(size, Queue([], 0), ops) == PutIn(size, Queue([], 0), ops);
  }

  /** Any run of writes, reads and releases within their sizes on a new buffer: what is
      gathered from its regions is what the plain queue gives, the bytes put in, in order. */
  method FirstInFirstOut(size: nat, ops: seq<Op>) returns (output: Bytes)
    ensures output == Fifo(size, Queue([], 0), ops)
    ensures output <= PutIn(size, Queue([], 0), ops)
  {
    hide Out, After, PutIn, Fifo, Buffer.Valid;
    var b := new Buffer(size);
    output := [];
    b.Counts();
    FifoEnds(size, ops, QueueOf(b.ring), output);
    assert QueueOf(b.ring) == Queue([], 0);
    hide QueueOf;
    for i := 0 to |ops|
      invariant b.Valid() && fresh(b) && fresh(b.data) && b.maxSize == size && b.Fields()
      invariant output + Fifo(size, QueueOf(b.ring), ops[i..]) == Fifo(size, Queue([], 0), ops)
    {
      FifoNext(size, QueueOf(b.ring), ops, i, output, Fifo(size, Queue([], 0), ops));
      var out := Do(b, ops[i]);
      output := output + out;
    }
    FifoEnds(size, ops, QueueOf(b.ring), output);
  }
}
