/** The chunked output queue (lib/buffer.c). */
module Buffers {
  import opened Octets

  /** All the bytes of a list of pieces, in order. */
  function Flat<T>(pieces: seq<seq<T>>): seq<T> {
    if pieces == [] then [] else pieces[0] + Flat(pieces[1..])
  }

  lemma {:induction false} FlatEmpty<T>(a: seq<seq<T>>)
    ensures Flat(a) == [] <==> forall i | 0 <= i < |a| :: a[i] == []
  {
    if a != [] {
      FlatEmpty(a[1..]);
      assert a == [a[0]] + a[1..];
    }
  }

  lemma {:induction false} FlatConcat<T>(a: seq<seq<T>>, b: seq<seq<T>>)
    ensures Flat(a + b) == Flat(a) + Flat(b)
  {
    if a == [] {
      assert a + b == b;
    } else {
      FlatConcat(a[1..], b);
      assert (a + b)[1..] == a[1..] + b;
    }
  }

  lemma FlatSnoc<T>(a: seq<seq<T>>, x: seq<T>)
    ensures Flat(a + [x]) == Flat(a) + x
  {
    FlatConcat(a, [x]);
    assert [x][1..] == [];
  }

  /** struct buffer_data: allocated memory, of which the bytes from `sp` up to `cp` are live. */
  datatype Chunk = Chunk(data: seq<Byte>, cp: nat, sp: nat)

  predicate Sound(c: Chunk) {
    c.sp <= c.cp <= |c.data|
  }

  function Live(c: Chunk): seq<Byte> {
    if Sound(c) then c.data[c.sp..c.cp] else []
  }

  /** memcpy behind the live bytes. */
  function Append(c: Chunk, bytes: seq<Byte>): (r: Chunk)
    requires Sound(c) && c.cp + |bytes| <= |c.data|
    ensures Sound(r) && Live(r) == Live(c) + bytes && |r.data| == |c.data|
  {
    Chunk(c.data[..c.cp] + bytes + c.data[c.cp + |bytes|..], c.cp + |bytes|, c.sp)
  }

  function Lives(chunks: seq<Chunk>): (r: seq<seq<Byte>>)
    ensures |r| == |chunks| && forall i | 0 <= i < |chunks| :: r[i] == Live(chunks[i])
  {
    seq(|chunks|, i requires 0 <= i < |chunks| => Live(chunks[i]))
  }

  /** The byte queue that a list of chunks stands for. */
  function Queue(chunks: seq<Chunk>): seq<Byte> {
    Flat(Lives(chunks))
  }

  lemma QueueEmpty(a: seq<Chunk>)
    ensures Queue(a) == [] <==> forall i | 0 <= i < |a| :: Live(a[i]) == []
  {
    FlatEmpty(Lives(a));
    assert forall i | 0 <= i < |a| :: Lives(a)[i] == Live(a[i]);
  }

  lemma QueueSnoc(a: seq<Chunk>, c: Chunk)
    ensures Queue(a + [c]) == Queue(a) + Live(c)
  {
    FlatSnoc(Lives(a), Live(c));
    assert Lives(a + [c]) == Lives(a) + [Live(c)];
  }

  /** Memory is allocated in full, and every chunk but the last is filled to its end. */
  predicate Formed(cs: seq<Chunk>, size: nat) {
    && (forall i | 0 <= i < |cs| :: |cs[i].data| == size && Sound(cs[i]))
    && (forall i | 0 <= i < |cs| - 1 :: cs[i].cp == size)
  }

  /** No chunk behind the k-th has consumed bytes. */
  predicate Untouched(cs: seq<Chunk>, k: nat) {
    forall i | k < i < |cs| :: cs[i].sp == 0
  }

  /** Exactly the first k chunks have been used up. */
  predicate Used(cs: seq<Chunk>, k: nat) {
    && k <= |cs|
    && (forall i | 0 <= i < k :: Live(cs[i]) == [])
    && (forall i | k <= i < |cs| :: Live(cs[i]) != [])
  }

  /** Ready for a copy into the last chunk, which may still be empty. */
  predicate Open(cs: seq<Chunk>, size: nat) {
    && Formed(cs, size) && Untouched(cs, 0)
    && cs != [] && Used(cs[..|cs| - 1], 0) && cs[|cs| - 1].cp < size
  }

  /** A last chunk with room is open, and so is a new one behind a full one. */
  lemma OpenAtEnd(cs: seq<Chunk>, size: nat)
    requires Formed(cs, size) && Untouched(cs, 0) && Used(cs, 0)
    ensures cs != [] && cs[|cs| - 1].cp != size ==> Open(cs, size)
  {
    if cs != [] {
      assert Sound(cs[|cs| - 1]);
      assert forall i | 0 <= i < |cs| - 1 :: cs[..|cs| - 1][i] == cs[i];
    }
  }

  lemma OpenByAdding(cs: seq<Chunk>, c: Chunk, size: nat)
    requires Formed(cs, size) && Untouched(cs, 0) && Used(cs, 0) && (cs != [] ==> cs[|cs| - 1].cp == size)
    requires Sound(c) && c.sp == c.cp == 0 && |c.data| == size > 0
    ensures Open(cs + [c], size) && Queue(cs + [c]) == Queue(cs)
  {
    AddKeeps(cs, c, size);
    assert (cs + [c])[..|cs|] == cs;
  }

  lemma FillKeeps(cs: seq<Chunk>, bytes: seq<Byte>, size: nat)
    requires Open(cs, size) && bytes != [] && cs[|cs| - 1].cp + |bytes| <= size
    ensures var r := cs[|cs| - 1 := Append(cs[|cs| - 1], bytes)];
            Formed(r, size) && Untouched(r, 0) && Used(r, 0) && Queue(r) == Queue(cs) + bytes
  {
    var t := |cs| - 1;
    var c := Append(cs[t], bytes);
    QueueLast(cs, cs[t]);
    QueueLast(cs, c);
    Assoc(Queue(cs[..t]), Live(cs[t]), bytes);
    assert cs[t := cs[t]] == cs;
    FillUsed(cs, c);
  }

  lemma FillMoves(cs: seq<Chunk>, bytes: seq<Byte>, n: nat, size: nat)
    requires Open(cs, size) && 0 < n <= |bytes| && cs[|cs| - 1].cp + n <= size
    ensures var r := cs[|cs| - 1 := Append(cs[|cs| - 1], bytes[..n])];
            && Formed(r, size) && Untouched(r, 0) && Used(r, 0)
            && Queue(r) + bytes[n..] == Queue(cs) + bytes
  {
    FillKeeps(cs, bytes[..n], size);
    Moved(Queue(cs), bytes, n);
  }

  /** The first bytes go over to the end of a queue. */
  lemma Moved(q: seq<Byte>, bytes: seq<Byte>, n: nat)
    requires n <= |bytes|
    ensures q + bytes[..n] + bytes[n..] == q + bytes
  {
    assert bytes == bytes[..n] + bytes[n..];
  }

  lemma QueueLast(cs: seq<Chunk>, c: Chunk)
    requires cs != []
    ensures Queue(cs[|cs| - 1 := c]) == Queue(cs[..|cs| - 1]) + Live(c)
  {
    QueueSnoc(cs[..|cs| - 1], c);
    assert cs[..|cs| - 1] + [c] == cs[|cs| - 1 := c];
  }

  lemma FillUsed(cs: seq<Chunk>, c: Chunk)
    requires cs != [] && Used(cs[..|cs| - 1], 0) && Live(c) != []
    ensures Used(cs[|cs| - 1 := c], 0)
  {
    var t := |cs| - 1;
    var r := cs[t := c];
    forall i | 0 <= i < |r|
      ensures Live(r[i]) != []
    {
      if i < t {
        assert r[i] == cs[..t][i];
      }
    }
  }

  lemma AddKeeps(cs: seq<Chunk>, c: Chunk, size: nat)
    requires Formed(cs, size) && Untouched(cs, 0) && Used(cs, 0) && (cs != [] ==> cs[|cs| - 1].cp == size)
    requires Sound(c) && c.sp == c.cp == 0 && |c.data| == size
    ensures Formed(cs + [c], size) && Untouched(cs + [c], 0) && Queue(cs + [c]) == Queue(cs)
  {
    QueueSnoc(cs, c);
    assert Live(c) == [];
  }

  /** The chunk list after its k-th chunk has given its first n bytes. */
  function Taken(cs: seq<Chunk>, k: nat, n: nat): seq<Chunk>
    requires k < |cs|
  {
    cs[k := cs[k].(sp := cs[k].sp + n)]
  }

  lemma TakeGives(cs: seq<Chunk>, k: nat, n: nat, piece: seq<Byte>)
    requires Used(cs, k) && k < |cs| && Sound(cs[k]) && n <= |Live(cs[k])|
    requires piece == cs[k].data[cs[k].sp..cs[k].sp + n]
    ensures Queue(cs) == piece + Queue(Taken(cs, k, n))
  {
    var c := cs[k].(sp := cs[k].sp + n);
    QueueFrom(cs, k);
    TakenFrom(cs, k, n);
    LiveCut(cs[k], n);
    Assoc(piece, Live(c), Queue(cs[k + 1..]));
  }

  lemma TakenFrom(cs: seq<Chunk>, k: nat, n: nat)
    requires k < |cs| && forall i | 0 <= i < k :: Live(cs[i]) == []
    ensures Queue(Taken(cs, k, n)) == Live(cs[k].(sp := cs[k].sp + n)) + Queue(cs[k + 1..])
  {
    var r := Taken(cs, k, n);
    QueueFrom(r, k);
    assert r[k + 1..] == cs[k + 1..];
  }

  lemma LiveCut(c: Chunk, n: nat)
    requires Sound(c) && n <= |Live(c)|
    ensures Live(c) == c.data[c.sp..c.sp + n] + Live(c.(sp := c.sp + n))
  {
  }

  lemma SplitBack(a: seq<Byte>, b: seq<Byte>, s: seq<Byte>)
    requires a + b == s
    ensures s[..|a|] == a && s[|a|..] == b
  {
  }

  lemma TakeMoves(cs: seq<Chunk>, k: nat, n: nat, iov: seq<seq<Byte>>, piece: seq<Byte>)
    requires Used(cs, k) && k < |cs| && Sound(cs[k]) && n <= |Live(cs[k])|
    requires piece == cs[k].data[cs[k].sp..cs[k].sp + n]
    ensures |Flat(iov + [piece])| == |Flat(iov)| + n
    ensures Flat(iov + [piece]) + Queue(Taken(cs, k, n)) == Flat(iov) + Queue(cs)
  {
    TakeGives(cs, k, n, piece);
    FlatSnoc(iov, piece);
    Assoc(Flat(iov), piece, Queue(Taken(cs, k, n)));
  }

  lemma QueueHead(cs: seq<Chunk>)
    requires cs != []
    ensures Queue(cs) == Live(cs[0]) + Queue(cs[1..])
  {
    assert Lives(cs)[1..] == Lives(cs[1..]);
  }

  lemma {:induction false} QueueFrom(cs: seq<Chunk>, k: nat)
    requires k < |cs| && forall i | 0 <= i < k :: Live(cs[i]) == []
    ensures Queue(cs) == Live(cs[k]) + Queue(cs[k + 1..])
  {
    QueueHead(cs);
    if k > 0 {
      var rest := cs[1..];
      QueueFrom(rest, k - 1);
      assert rest[k..] == cs[k + 1..];
      assert Live(cs[0]) == [];
    }
  }

  lemma TakeKeeps(cs: seq<Chunk>, k: nat, n: nat, size: nat)
    requires Used(cs, k) && Formed(cs, size) && Untouched(cs, k) && k < |cs| && n <= |Live(cs[k])|
    ensures Sound(cs[k]) && |Live(cs[k])| == cs[k].cp - cs[k].sp && |Queue(cs)| >= |Live(cs[k])|
    ensures var r := Taken(cs, k, n);
            Formed(r, size) && Untouched(r, k) && Used(r, if n == |Live(cs[k])| then k + 1 else k)
  {
    assert Sound(cs[k]);
    QueueFrom(cs, k);
    TakeForms(cs, k, n, size);
    TakeUses(cs, k, n);
  }

  lemma TakeForms(cs: seq<Chunk>, k: nat, n: nat, size: nat)
    requires Formed(cs, size) && Untouched(cs, k) && k < |cs| && n <= |Live(cs[k])|
    ensures Formed(Taken(cs, k, n), size) && Untouched(Taken(cs, k, n), k)
  {
  }

  lemma TakeUses(cs: seq<Chunk>, k: nat, n: nat)
    requires Used(cs, k) && k < |cs| && Sound(cs[k]) && n <= |Live(cs[k])|
    ensures Used(Taken(cs, k, n), if n == |Live(cs[k])| then k + 1 else k)
  {
  }

  /** No chunk too many: with the consumed bytes of the first one, the queue needs all of them. */
  lemma {:induction false} ChunksNeeded(cs: seq<Chunk>, size: nat)
    requires Formed(cs, size) && Untouched(cs, 0) && Used(cs, 0) && cs != []
    ensures (|cs| - 1) * size < cs[0].sp + |Queue(cs)| <= |cs| * size
  {
    var rest := cs[1..];
    QueueHead(cs);
    assert Sound(cs[0]) && Live(cs[0]) != [];
    if rest == [] {
      QueueEmpty(rest);
    } else {
      RestStands(cs, size);
      ChunksNeeded(rest, size);
      OneMore(|rest|, size);
      OneMore(|rest| - 1, size);
    }
  }

  lemma OneMore(n: nat, size: nat)
    ensures (n + 1) * size == n * size + size
  {
  }

  lemma RestStands(cs: seq<Chunk>, size: nat)
    requires Formed(cs, size) && Untouched(cs, 0) && Used(cs, 0) && |cs| > 1
    ensures Formed(cs[1..], size) && Untouched(cs[1..], 0) && Used(cs[1..], 0) && cs[1].sp == 0 && cs[0].cp == size
  {
  }

  /** The text that flush_vty draws over, 30 bytes, and the prompt with its terminator, 11 bytes. */
  const Erase: seq<Byte> := [8, 8, 8, 8, 8, 8, 8, 8, 8, 8]
                          + [32, 32, 32, 32, 32, 32, 32, 32, 32, 32]
                          + [8, 8, 8, 8, 8, 8, 8, 8, 8, 8]
  const More: seq<Byte> := [32, 45, 45, 77, 111, 114, 101, 45, 45, 32, 0]

  /** The number of writev calls that a vector of n entries needs. */
  function BatchCount(n: nat, iovMax: nat): nat
    requires iovMax > 0
  {
    if n == 0 then 0 else if n <= iovMax then 1 else 1 + BatchCount(n - iovMax, iovMax)
  }

  /** What the first n calls return together. */
  function Replies(reply: nat -> int, n: nat): int {
    if n == 0 then 0 else Replies(reply, n - 1) + reply(n - 1)
  }

  /** The IOV_MAX loop of buffer_flush_vty. `reply(j)` is what the j-th writev returns. Everything reaches
      writev exactly when no call but the last one fails; otherwise the calls stop at a failure. */
  method WriteBatches(iov: seq<seq<Byte>>, iovMax: nat, reply: nat -> int)
      returns (calls: seq<seq<seq<Byte>>>, nbytes: int)
    requires iovMax > 0
    ensures forall j | 0 <= j < |calls| :: 0 < |calls[j]| <= iovMax
    ensures Flat(calls) <= iov
    ensures Flat(calls) == iov <==> forall j: nat | j + 1 < BatchCount(|iov|, iovMax) :: reply(j) >= 0
    ensures Flat(calls) != iov ==> calls != [] && reply(|calls| - 1) < 0
    ensures nbytes == if calls != [] && reply(|calls| - 1) < 0 then reply(|calls| - 1) else Replies(reply, |calls|)
  {
    calls, nbytes := [], 0;
    var at := 0;
    while at < |iov|
      invariant 0 <= at <= |iov| && Flat(calls) == iov[..at]
      invariant forall j | 0 <= j < |calls| :: 0 < |calls[j]| <= iovMax
      invariant (forall j: nat | j < |calls| :: reply(j) >= 0) && nbytes == Replies(reply, |calls|)
      invariant BatchCount(|iov|, iovMax) == |calls| + BatchCount(|iov| - at, iovMax)
      decreases |iov| - at
    {
      var total := |iov| - at;
      var size := if total > iovMax then iovMax else total;
      var j := |calls|;
      var c := reply(j);
      calls := calls + [iov[at..at + size]];
      FlatSnoc(calls[..j], calls[j]);
      assert calls[..j] + [calls[j]] == calls;
      assert iov[..at] + iov[at..at + size] == iov[..at + size];
      if c < 0 {
        nbytes := c;
        assert at + size == |iov| || j + 1 < BatchCount(|iov|, iovMax);
        return;
      }
      nbytes := nbytes + c;
      at := at + size;
    }
  }

  /** Conversions of C: an int of 32 bits to an unsigned long of 64, and an unsigned long back to an int. */
  function ToUlong(n: int): int {
    if n >= 0 then n else n + 0x1_0000_0000_0000_0000
  }

  function ToInt(n: int): int {
    var m := n % 0x1_0000_0000;
    if m < 0x8000_0000 then m else m - 0x1_0000_0000
  }

  predicate IsInt(n: int) {
    -0x8000_0000 <= n < 0x8000_0000
  }

  /** The number of bytes that an int `size` asks for: a negative one is taken modulo 2^32. */
  function Asked(n: int): nat
    requires IsInt(n)
  {
    if n >= 0 then n else n + 0x1_0000_0000
  }

  /** The int counter of buffer_flush_vty, compared with and decremented by unsigned chunk lengths, counts
      down from that number: the comparison has the same outcome, and so has the difference. */
  lemma CounterIsAsked(n: int, k: nat)
    requires IsInt(n) && k < 0x8000_0000
    ensures ToUlong(n) <= k <==> Asked(n) <= k
    ensures Asked(n) > k ==> IsInt(ToInt(ToUlong(n) - k)) && Asked(ToInt(ToUlong(n) - k)) == Asked(n) - k
  {
    var u := Asked(n);
    if u > k {
      assert ToUlong(n) - k == (u - k) + 0x1_0000_0000 * (if n >= 0 then 0 else 0xffff_ffff);
      assert (ToUlong(n) - k) % 0x1_0000_0000 == u - k;
    }
  }

  /** The lengths of the live parts of the chunks. */
  ghost function Lengths(cs: seq<Chunk>): (r: seq<nat>)
    ensures |r| == |cs| && forall i | 0 <= i < |cs| :: r[i] == |Live(cs[i])|
  {
    seq(|cs|, i requires 0 <= i < |cs| => |Live(cs[i])|)
  }

  function Sum(lens: seq<nat>): nat {
    if lens == [] then 0 else lens[0] + Sum(lens[1..])
  }

  lemma {:induction false} SumIsQueue(cs: seq<Chunk>)
    ensures Sum(Lengths(cs)) == |Queue(cs)|
  {
    if cs != [] {
      SumIsQueue(cs[1..]);
      QueueHead(cs);
      assert Lengths(cs)[1..] == Lengths(cs[1..]);
    }
  }

  /** How many bytes of chunks of these lengths an int counter lets through, by the conversions of C. */
  function LetThrough(lens: seq<nat>, n: int): nat
    requires IsInt(n)
  {
    if lens == [] then 0
    else if ToUlong(n) <= lens[0] then ToUlong(n)
    else lens[0] + LetThrough(lens[1..], ToInt(ToUlong(n) - lens[0]))
  }

  /** The same from the k-th chunk on. */
  function LetFrom(lens: seq<nat>, k: nat, n: int): nat
    requires IsInt(n) && k <= |lens|
  {
    LetThrough(lens[k..], n)
  }

  /** The counter behind a chunk that is taken whole. */
  function CountDown(n: int, k: nat): (r: int)
    requires IsInt(n)
    ensures IsInt(r)
  {
    ToInt(ToUlong(n) - k)
  }

  lemma LetFromStep(lens: seq<nat>, k: nat, n: int)
    requires IsInt(n) && k <= |lens| && forall i | 0 <= i < |lens| :: lens[i] < 0x8000_0000_0000_0000
    ensures k == |lens| ==> LetFrom(lens, k, n) == 0
    ensures k < |lens| && ToUlong(n) <= lens[k] ==> 0 <= n <= lens[k] && LetFrom(lens, k, n) == n
    ensures k < |lens| && ToUlong(n) > lens[k] ==>
              LetFrom(lens, k, n) == lens[k] + LetFrom(lens, k + 1, CountDown(n, lens[k]))
  {
    if k < |lens| {
      assert lens[k..][0] == lens[k] && lens[k..][1..] == lens[k + 1..];
    }
  }

  /** Chunks shorter than 2^31 octets: as many as it asks for, or all. */
  lemma {:induction false} LetThroughIs(lens: seq<nat>, n: int)
    requires IsInt(n) && forall i | 0 <= i < |lens| :: lens[i] < 0x8000_0000
    ensures LetThrough(lens, n) == if Asked(n) <= Sum(lens) then Asked(n) else Sum(lens)
  {
    if lens != [] {
      CounterIsAsked(n, lens[0]);
      if Asked(n) > lens[0] {
        LetThroughIs(lens[1..], ToInt(ToUlong(n) - lens[0]));
      }
    }
  }

  /** struct buffer. */
  class Buffer {
    const size: nat
    var chunks: seq<Chunk>
    var alloc: nat
    var length: nat
    /** Everything ever written, and everything ever put in a vector. */
    ghost var written: seq<Byte>
    ghost var handed: seq<Byte>

    ghost predicate Valid()
      reads this
    {
      && size > 0 && alloc == |chunks|
      && Formed(chunks, size) && Untouched(chunks, 0) && Used(chunks, 0)
      && handed + Queue(chunks) == written
    }

    constructor (size: nat)
      requires size > 0
      ensures Valid() && this.size == size && written == handed == []
    {
      this.size := size;
      chunks, alloc, length := [], 0, 0;
      written, handed := [], [];
    }

    /** buffer_empty looks at the last chunk only; right also while a flush is under way. */
    method Empty(ghost used: nat) returns (r: bool)
      requires Formed(chunks, size) && Used(chunks, used)
      ensures r <==> Queue(chunks) == []
    {
      QueueEmpty(chunks);
      if |chunks| == 0 {
        return true;
      }
      var tail := chunks[|chunks| - 1];
      return tail.cp == tail.sp;
    }

    /** buffer_add. */
    method Add()
      modifies this`chunks, this`alloc
      ensures chunks == old(chunks) + [Chunk(seq(size, _ => 0), 0, 0)] && alloc == old(alloc) + 1
    {
      chunks := chunks + [Chunk(seq(size, _ => 0), 0, 0)];
      alloc := alloc + 1;
    }

    ghost predicate Ready()
      reads this
    {
      size > 0 && alloc == |chunks| && Formed(chunks, size) && Untouched(chunks, 0) && Used(chunks, 0)
    }

    /** buffer_write. */
    method Write(bytes: seq<Byte>)
      requires Valid()
      modifies this`chunks, this`alloc, this`length, this`written
      ensures Valid()
      ensures written == old(written) + bytes && length == old(length) + |bytes|
      ensures Queue(chunks) == old(Queue(chunks)) + bytes
    {
      length := length + |bytes|;
      ghost var was := Queue(chunks);
      var rest := bytes;
      while rest != []
        invariant Ready()
        invariant Queue(chunks) + rest == was + bytes
        modifies this`chunks, this`alloc
        decreases |rest|
      {
        rest := WriteSome(rest);
      }
      assert Queue(chunks) == was + bytes;
      Assoc(handed, was, bytes);
      written := written + bytes;
    }

    /** One round of the loop: the last chunk, a new one if there is no room, takes what fits. */
    method WriteSome(bytes: seq<Byte>) returns (rest: seq<Byte>)
      requires Ready() && bytes != []
      modifies this`chunks, this`alloc
      ensures Ready() && |rest| < |bytes|
      ensures Queue(chunks) + rest == old(Queue(chunks)) + bytes
    {
      OpenAtEnd(chunks, size);
      if |chunks| == 0 || chunks[|chunks| - 1].cp == size {
        OpenByAdding(chunks, Chunk(seq(size, _ => 0), 0, 0), size);
        Add();
      }
      rest := Fill(bytes);
    }

    /** The copy into the last chunk. */
    method Fill(bytes: seq<Byte>) returns (rest: seq<Byte>)
      requires Open(chunks, size) && bytes != []
      modifies this`chunks
      ensures Formed(chunks, size) && Untouched(chunks, 0) && Used(chunks, 0) && |chunks| == |old(chunks)|
      ensures Queue(chunks) + rest == old(Queue(chunks)) + bytes && |rest| < |bytes|
    {
      var t := |chunks| - 1;
      var room := size - chunks[t].cp;
      var n := if |bytes| <= room then |bytes| else room;
      rest := bytes[n..];
      FillMoves(chunks, bytes, n, size);
      chunks := chunks[t := Append(chunks[t], bytes[..n])];
    }

    /** The loop of buffer_flush: fill a vector with the first `n` bytes of the queue and move the start
        cursors. `k` is the chunk that `data` points at in the end (NULL: the count). */
    method Gather(n: nat) returns (iov: seq<seq<Byte>>, k: nat)
      requires Formed(chunks, size) && Untouched(chunks, 0) && Used(chunks, 0)
      modifies this`chunks
      ensures Formed(chunks, size) && Untouched(chunks, k) && Used(chunks, k)
      ensures |chunks| == |old(chunks)| && |iov| <= |chunks|
      ensures Flat(iov) + Queue(chunks) == old(Queue(chunks))
      ensures |Flat(iov)| == if n <= |old(Queue(chunks))| then n else |old(Queue(chunks))|
    {
      iov, k := [], 0;
      ghost var was := Queue(chunks);
      var left: nat := n;
      while k < |chunks|
        invariant 0 <= k <= |chunks| == |old(chunks)| && |iov| == k
        invariant Formed(chunks, size) && Untouched(chunks, k) && Used(chunks, k)
        invariant Flat(iov) + Queue(chunks) == was
        invariant |Flat(iov)| + left == n
        decreases |chunks| - k
      {
        var d := chunks[k];
        TakeKeeps(chunks, k, 0, size);
        if left <= d.cp - d.sp {
          TakeKeeps(chunks, k, left, size);
          iov := Take(k, left, iov);
          if d.sp + left == d.cp {
            k := k + 1;
          }
          return;
        }
        TakeKeeps(chunks, k, d.cp - d.sp, size);
        iov := Take(k, d.cp - d.sp, iov);
        left := left - (d.cp - d.sp);
        k := k + 1;
      }
      QueueEmpty(chunks);
    }

    /** The loop of buffer_flush_vty, which counts down an int against unsigned lengths. */
    method GatherInt(count: int) returns (iov: seq<seq<Byte>>, k: nat)
      requires Formed(chunks, size) && Untouched(chunks, 0) && Used(chunks, 0)
      requires IsInt(count) && size < 0x8000_0000_0000_0000
      modifies this`chunks
      ensures Formed(chunks, size) && Untouched(chunks, k) && Used(chunks, k)
      ensures |chunks| == |old(chunks)| && |iov| <= |chunks|
      ensures Flat(iov) + Queue(chunks) == old(Queue(chunks))
      ensures |Flat(iov)| == LetThrough(old(Lengths(chunks)), count)
    {
      iov, k := [], 0;
      ghost var was, lens := Queue(chunks), Lengths(chunks);
      LengthsBounded(chunks, size);
      var left := count;
      assert lens[0..] == lens;
      while k < |chunks|
        invariant 0 <= k <= |chunks| == |old(chunks)| == |lens| && |iov| == k && IsInt(left)
        invariant Formed(chunks, size) && Untouched(chunks, k) && Used(chunks, k) && Lengths(chunks)[k..] == lens[k..]
        invariant Flat(iov) + Queue(chunks) == was
        invariant |Flat(iov)| + LetFrom(lens, k, left) == LetFrom(lens, 0, count)
        decreases |chunks| - k
      {
        var stop;
        stop, iov, left := TakeRound(k, left, iov, lens);
        if stop {
          if chunks[k].sp == chunks[k].cp {
            k := k + 1;
          }
          return;
        }
        k := k + 1;
      }
      LetFromStep(lens, k, left);
    }

    /** One round of that loop. */
    method TakeRound(k: nat, left: int, iov: seq<seq<Byte>>, ghost lens: seq<nat>)
        returns (stop: bool, more: seq<seq<Byte>>, now: int)
      requires Formed(chunks, size) && Untouched(chunks, k) && Used(chunks, k) && k < |chunks| == |lens|
      requires IsInt(left) && Lengths(chunks)[k..] == lens[k..]
      requires forall i | 0 <= i < |lens| :: lens[i] < 0x8000_0000_0000_0000
      modifies this`chunks
      ensures |chunks| == |old(chunks)| && |more| == |iov| + 1 && IsInt(now)
      ensures Formed(chunks, size) && Untouched(chunks, k)
      ensures Used(chunks, if chunks[k].sp == chunks[k].cp then k + 1 else k)
      ensures Flat(more) + Queue(chunks) == Flat(iov) + old(Queue(chunks))
      ensures stop ==> |Flat(more)| == |Flat(iov)| + LetFrom(lens, k, left)
      ensures !stop ==>
                && chunks[k].sp == chunks[k].cp && Lengths(chunks)[k + 1..] == lens[k + 1..]
                && |Flat(more)| + LetFrom(lens, k + 1, now) == |Flat(iov)| + LetFrom(lens, k, left)
    {
      var d := chunks[k];
      TakeKeeps(chunks, k, 0, size);
      assert lens[k] == lens[k..][0] == Lengths(chunks)[k];
      LetFromStep(lens, k, left);
      var n: nat := d.cp - d.sp;
      stop, now := ToUlong(left) <= n, left;
      if stop {
        n := left;
      } else {
        now := CountDown(left, n);
      }
      TakeKeeps(chunks, k, n, size);
      LengthsBehind(chunks, k, n);
      more := Take(k, n, iov);
    }

    /** One entry of the vector: the first n live bytes of chunk k. */
    method Take(k: nat, n: nat, iov: seq<seq<Byte>>) returns (more: seq<seq<Byte>>)
      requires Used(chunks, k) && k < |chunks| && Sound(chunks[k]) && n <= |Live(chunks[k])|
      modifies this`chunks
      ensures chunks == Taken(old(chunks), k, n)
      ensures |more| == |iov| + 1 && |Flat(more)| == |Flat(iov)| + n
      ensures Flat(more) + Queue(chunks) == Flat(iov) + old(Queue(chunks))
    {
      var d := chunks[k];
      more := iov + [d.data[d.sp..d.sp + n]];
      TakeMoves(chunks, k, n, iov, d.data[d.sp..d.sp + n]);
      chunks := chunks[k := d.(sp := d.sp + n)];
    }

    /** Free the first k chunks. */
    method Free(k: nat)
      requires alloc == |chunks| && Formed(chunks, size) && Untouched(chunks, k) && Used(chunks, k)
      modifies this`chunks, this`alloc
      ensures alloc == |chunks| && Formed(chunks, size) && Untouched(chunks, 0) && Used(chunks, 0)
      ensures Queue(chunks) == old(Queue(chunks))
    {
      var n := k;
      while n > 0
        invariant 0 <= n <= k && alloc == |chunks| && Formed(chunks, size) && Untouched(chunks, n) && Used(chunks, n)
        invariant Queue(chunks) == old(Queue(chunks))
      {
        QueueFrom(chunks, 0);
        chunks := chunks[1..];
        alloc := alloc - 1;
        n := n - 1;
      }
    }

    /** buffer_flush: at most `n` bytes leave, in order, in one writev. */
    method Flush(n: nat) returns (iov: seq<seq<Byte>>)
      requires Valid()
      modifies this`chunks, this`alloc, this`handed
      ensures Valid() && handed == old(handed) + Flat(iov)
      ensures Flat(iov) + Queue(chunks) == old(Queue(chunks))
      ensures |Flat(iov)| == if n <= |old(Queue(chunks))| then n else |old(Queue(chunks))|
      ensures |iov| <= old(alloc)
    {
      var k;
      iov, k := Gather(n);
      Free(k);
      Assoc(handed, Flat(iov), Queue(chunks));
      handed := handed + Flat(iov);
    }

    /** buffer_flush_all: everything leaves in one writev, and the buffer is reset. */
    method FlushAll(reply: int) returns (iov: seq<seq<Byte>>, ret: int)
      requires Valid()
      modifies this`chunks, this`alloc, this`handed, this`length
      ensures Valid() && Queue(chunks) == [] && handed == written
      ensures Flat(iov) == old(Queue(chunks)) && |iov| == old(alloc)
      ensures ret == if old(Queue(chunks)) == [] then 0 else reply
      ensures old(Queue(chunks)) != [] ==> length == 0
    {
      iov := [];
      var e := Empty(0);
      QueueEmpty(chunks);
      if e {
        return iov, 0;
      }
      var i := 0;
      while i < |chunks|
        invariant 0 <= i <= |chunks| && iov == Lives(chunks)[..i]
        modifies {}
      {
        iov := iov + [Live(chunks[i])];
        i := i + 1;
      }
      assert iov == Lives(chunks);
      handed := handed + Flat(iov);
      chunks, alloc, length := [], 0, 0;
      return iov, reply;
    }

    /** buffer_flush_vty: as Flush with the number of bytes that its int asks for, between the erasing text
        and the prompt, in batches. The prompt is shown exactly when bytes stay behind; all of it reaches
        writev exactly when no call but the last fails, and the flushed bytes leave the queue in any case. */
    method FlushVty(count: int, erase: bool, noMore: bool, iovMax: nat, reply: nat -> int)
        returns (iov: seq<seq<Byte>>, calls: seq<seq<seq<Byte>>>, nbytes: int)
      requires Valid() && iovMax > 0 && IsInt(count) && size < 0x8000_0000_0000_0000
      modifies this`chunks, this`alloc, this`handed
      ensures Valid() && |iov| <= old(alloc) + 2
      ensures var q, m := old(Queue(chunks)), LetThrough(old(Lengths(chunks)), count);
              && m <= |q| && handed == old(handed) + q[..m] && Queue(chunks) == q[m..]
              && Flat(iov) == (if erase then Erase else []) + q[..m] + (if m < |q| && !noMore then More else [])
              && (size < 0x8000_0000 ==> m == if Asked(count) <= |q| then Asked(count) else |q|)
      ensures Flat(calls) <= iov && forall j | 0 <= j < |calls| :: 0 < |calls[j]| <= iovMax
      ensures Flat(calls) == iov <==> forall j: nat | j + 1 < BatchCount(|iov|, iovMax) :: reply(j) >= 0
      ensures nbytes == if calls != [] && reply(|calls| - 1) < 0 then reply(|calls| - 1) else Replies(reply, |calls|)
    {
      ghost var was := Queue(chunks);
      AskedIsLetThrough(chunks, size, count);
      var taken, k := GatherInt(count);
      SplitBack(Flat(taken), Queue(chunks), was);
      var empty := Empty(k);
      iov := Framed(taken, erase, !empty && !noMore);
      FramedFlat(taken, erase, !empty && !noMore);
      calls, nbytes := WriteBatches(iov, iovMax, reply);
      Free(k);
      Assoc(handed, Flat(taken), Queue(chunks));
      handed := handed + Flat(taken);
    }
  }

  lemma LengthsBounded(cs: seq<Chunk>, size: nat)
    requires Formed(cs, size)
    ensures forall i | 0 <= i < |cs| :: Lengths(cs)[i] <= size
  {
  }

  /** Taking from a chunk leaves the lengths behind it. */
  lemma LengthsBehind(cs: seq<Chunk>, k: nat, n: nat)
    requires k < |cs|
    ensures Lengths(Taken(cs, k, n))[k + 1..] == Lengths(cs)[k..][1..]
  {
  }

  lemma AskedIsLetThrough(cs: seq<Chunk>, size: nat, count: int)
    requires Formed(cs, size) && IsInt(count)
    ensures size < 0x8000_0000 ==>
              LetThrough(Lengths(cs), count) == if Asked(count) <= |Queue(cs)| then Asked(count) else |Queue(cs)|
  {
    if size < 0x8000_0000 {
      SumIsQueue(cs);
      LetThroughIs(Lengths(cs), count);
    }
  }

  /** The vector of buffer_flush_vty, with the texts around the data. */
  function Framed(taken: seq<seq<Byte>>, erase: bool, more: bool): seq<seq<Byte>> {
    (if erase then [Erase] else []) + taken + (if more then [More] else [])
  }

  lemma FramedFlat(taken: seq<seq<Byte>>, erase: bool, more: bool)
    ensures Flat(Framed(taken, erase, more))
         == (if erase then Erase else []) + Flat(taken) + (if more then More else [])
  {
    var front: seq<seq<Byte>> := if erase then [Erase] else [];
    var both := front + taken;
    FlatConcat(front, taken);
    FlatSnoc([], Erase);
    assert [] + [Erase] == [Erase];
    assert Flat(both) == (if erase then Erase else []) + Flat(taken);
    if more {
      FlatSnoc(both, More);
    } else {
      assert both + [] == both;
    }
  }
}
