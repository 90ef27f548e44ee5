/** The upload path of a body: limitReader (internal/object/limitreader.go), MD5Reader
    (internal/hash/md5reader.go), copyWithContext and Put (internal/storage/filesystem/storage.go). */
module UploadStream {
  import opened Basics

  datatype Err = Nil | EOF | Broken | TooLarge

  /** One reply of a reader: some bytes and an error that may come with them. */
  datatype Chunk = Chunk(data: Bytes, err: Err)

  const BUF_SIZE := 32 * 1024

  // ---------------------------------------------------------------- what a body is

  /** The bytes a reader hands out up to its first error. */
  function Body(cs: seq<Chunk>): Bytes {
    if cs == [] then []
    else if cs[0].err != Nil then cs[0].data
    else cs[0].data + Body(cs[1..])
  }

  function EndOf(cs: seq<Chunk>): Err {
    if cs == [] then EOF
    else if cs[0].err != Nil then cs[0].err
    else EndOf(cs[1..])
  }

  /** A reader that never returns (0, nil) and reports errors apart from data. */
  predicate Plain(cs: seq<Chunk>) {
    forall i | 0 <= i < |cs| :: cs[i].err == Nil <==> cs[i].data != []
  }

  // ---------------------------------------------------------------- one Read

  /** The reply to a Read into a buffer of `max` bytes; what did not fit stays for the next one. */
  function ReadFrom(cs: seq<Chunk>, max: nat): (Chunk, seq<Chunk>) {
    if cs == [] then (Chunk([], EOF), [])
    else if |cs[0].data| <= max then (cs[0], cs[1..])
    else (Chunk(cs[0].data[..max], Nil), [Chunk(cs[0].data[max..], cs[0].err)] + cs[1..])
  }

  function Weight(cs: seq<Chunk>): nat {
    if cs == [] then 0 else 1 + |cs[0].data| + Weight(cs[1..])
  }

  lemma BodyFirst(head: Chunk, tail: seq<Chunk>)
    ensures Body([head] + tail) == if head.err == Nil then head.data + Body(tail) else head.data
    ensures EndOf([head] + tail) == if head.err == Nil then EndOf(tail) else head.err
    ensures Weight([head] + tail) == 1 + |head.data| + Weight(tail)
  {
    assert ([head] + tail)[1..] == tail;
  }

  lemma CutBody(data: Bytes, max: nat, rest: Bytes)
    requires max <= |data|
    ensures data == data[..max] + data[max..]
    ensures data + rest == data[..max] + (data[max..] + rest)
  {
  }

  /** A reply that leaves the rest of its chunk for the next one. */
  lemma ReadCut(cs: seq<Chunk>, max: nat)
    requires 1 <= max && cs != [] && |cs[0].data| > max
    ensures var (c, rest) := ReadFrom(cs, max);
            && c.err == Nil && |c.data| == max
            && Weight(rest) < Weight(cs) && Body(cs) == c.data + Body(rest) && EndOf(cs) == EndOf(rest)
  {
    var head, tail := cs[0], cs[1..];
    assert cs == [head] + tail;
    BodyFirst(head, tail);
    BodyFirst(Chunk(head.data[max..], head.err), tail);
    CutBody(head.data, max, Body(tail));
  }

  /** A Read hands out the next bytes of the body, or ends it. */
  lemma ReadAdvances(cs: seq<Chunk>, max: nat)
    requires max >= 1
    ensures var (c, rest) := ReadFrom(cs, max);
            && |c.data| <= max
            && (c.err == Nil ==> Weight(rest) < Weight(cs) && Body(cs) == c.data + Body(rest) && EndOf(cs) == EndOf(rest))
            && (c.err != Nil ==> Body(cs) == c.data && EndOf(cs) == c.err)
  {
    if cs != [] && |cs[0].data| > max {
      ReadCut(cs, max);
    }
  }

  function Min(a: nat, b: nat): nat {
    if a < b then a else b
  }

  /** limitReader.Read with `left` bytes to go. */
  function ReadLimited(cs: seq<Chunk>, left: nat, max: nat): (Chunk, seq<Chunk>) {
    if left == 0 then
      var (probe, rest) := ReadFrom(cs, 1);
      (Chunk([], if probe.err == Nil then TooLarge else probe.err), rest)
    else ReadFrom(cs, Min(max, left))
  }

  // ---------------------------------------------------------------- the copy loop

  function CopyAll(cs: seq<Chunk>): (Bytes, Err)
    decreases Weight(cs)
  {
    ReadAdvances(cs, BUF_SIZE);
    var (c, rest) := ReadFrom(cs, BUF_SIZE);
    if c.err != Nil then (c.data, c.err)
    else var (b, e) := CopyAll(rest); (c.data + b, e)
  }

  function CopyLimited(cs: seq<Chunk>, left: nat): (Bytes, Err)
    decreases Weight(cs)
  {
    ReadAdvances(cs, Min(BUF_SIZE, if left == 0 then 1 else left));
    var (c, rest) := ReadLimited(cs, left, BUF_SIZE);
    if c.err != Nil then (c.data, c.err)
    else var (b, e) := CopyLimited(rest, left - |c.data|); (c.data + b, e)
  }

  /** Without a limit the copy is the body. */
  lemma {:induction false} CopyAllIsBody(cs: seq<Chunk>)
    ensures CopyAll(cs) == (Body(cs), EndOf(cs))
    decreases Weight(cs)
  {
    ReadAdvances(cs, BUF_SIZE);
    var (c, rest) := ReadFrom(cs, BUF_SIZE);
    if c.err == Nil { CopyAllIsBody(rest); }
  }

  // ---------------------------------------------------------------- at the limit

  /** What is left in the reader after `left` bytes, unless it has reported its end by then. */
  function Beyond(cs: seq<Chunk>, left: nat): Option<seq<Chunk>> {
    if left == 0 then Some(cs)
    else if cs == [] then None
    else if |cs[0].data| > left then Some([Chunk(cs[0].data[left..], cs[0].err)] + cs[1..])
    else if cs[0].err != Nil then None
    else Beyond(cs[1..], left - |cs[0].data|)
  }

  /** The reader's reply to the one-byte probe at the limit tells a longer body from an ended one. */
  predicate FairAt(cs: seq<Chunk>, limit: nat) {
    match Beyond(cs, limit)
    case None => true
    case Some(rest) =>
      rest == [] || (!(|rest[0].data| == 1 && rest[0].err == EOF) && (rest[0] == Chunk([], Nil) ==> !EndsHere(rest)))
  }

  predicate EndsHere(cs: seq<Chunk>) {
    Body(cs) == [] && EndOf(cs) == EOF
  }

  /** A body of at most `limit` bytes is copied unchanged, anything else is an error. */
  ghost predicate CopiedRight(cs: seq<Chunk>, limit: nat) {
    var (b, e) := CopyLimited(cs, limit);
    && (e == EOF <==> EndOf(cs) == EOF && |Body(cs)| <= limit)
    && (e == EOF ==> b == Body(cs))
  }

  lemma ReadKeepsBeyond(cs: seq<Chunk>, left: nat, max: nat)
    requires 1 <= max <= left
    ensures var (c, rest) := ReadFrom(cs, max);
            if c.err != Nil then Beyond(cs, left) == None
            else |c.data| <= left && Beyond(cs, left) == Beyond(rest, left - |c.data|)
  {
    if cs != [] && |cs[0].data| > max {
      var (c, rest) := ReadFrom(cs, max);
      assert rest[1..] == cs[1..];
      assert left < |cs[0].data| ==> cs[0].data[left..] == rest[0].data[left - max..];
    }
  }

  /** Up to the limit the copy follows the body; at the limit the probe decides. */
  ghost predicate Follows(cs: seq<Chunk>, left: nat, copied: (Bytes, Err), beyond: Option<seq<Chunk>>) {
    match beyond
    case None => copied == (Body(cs), EndOf(cs)) && |Body(cs)| <= left
    case Some(rest) =>
      && |Body(cs)| == left + |Body(rest)| && EndOf(cs) == EndOf(rest)
      && copied == (Body(cs)[..left], ReadLimited(rest, 0, BUF_SIZE).0.err)
  }

  lemma CopyStep(cs: seq<Chunk>, left: nat)
    ensures var (c, rest) := ReadLimited(cs, left, BUF_SIZE);
            && |c.data| <= left && (c.err == Nil ==> Weight(rest) < Weight(cs))
            && (c.err != Nil ==> CopyLimited(cs, left) == (c.data, c.err))
            && (c.err == Nil ==>
                  var (b, e) := CopyLimited(rest, left - |c.data|);
                  CopyLimited(cs, left) == (c.data + b, e))
  {
    ReadAdvances(cs, Min(BUF_SIZE, if left == 0 then 1 else left));
  }

  lemma CopyAllStep(cs: seq<Chunk>)
    ensures var (c, rest) := ReadFrom(cs, BUF_SIZE);
            && (c.err != Nil ==> CopyAll(cs) == (c.data, c.err))
            && (c.err == Nil ==> Weight(rest) < Weight(cs) && var (b, e) := CopyAll(rest); CopyAll(cs) == (c.data + b, e))
  {
    ReadAdvances(cs, BUF_SIZE);
  }

  lemma FollowsStep(cs: seq<Chunk>, left: nat, c: Chunk, rest: seq<Chunk>, b: Bytes, e: Err, beyond: Option<seq<Chunk>>)
    requires |c.data| <= left && Body(cs) == c.data + Body(rest) && EndOf(cs) == EndOf(rest)
    requires Follows(rest, left - |c.data|, (b, e), beyond)
    ensures Follows(cs, left, (c.data + b, e), beyond)
  {
    if beyond.Some? {
      assert Body(cs)[..left] == c.data + Body(rest)[..left - |c.data|];
    }
  }

  lemma {:induction false} CopyToLimit(cs: seq<Chunk>, left: nat)
    ensures Follows(cs, left, CopyLimited(cs, left), Beyond(cs, left))
    decreases Weight(cs)
  {
    if left > 0 {
      var max := Min(BUF_SIZE, left);
      var (c, rest) := ReadFrom(cs, max);
      ReadAdvances(cs, max);
      ReadKeepsBeyond(cs, left, max);
      CopyStep(cs, left);
      if c.err == Nil {
        CopyToLimit(rest, left - |c.data|);
        var (b, e) := CopyLimited(rest, left - |c.data|);
        FollowsStep(cs, left, c, rest, b, e, Beyond(cs, left));
      }
    }
  }

  /** The limit is enforced exactly when the reader is fair at the limit. */
  lemma LimitEnforcedIff(cs: seq<Chunk>, limit: nat)
    ensures CopiedRight(cs, limit) <==> FairAt(cs, limit)
  {
    CopyToLimit(cs, limit);
    if Beyond(cs, limit).Some? {
      var rest := Beyond(cs, limit).value;
      ReadAdvances(rest, 1);
      if rest != [] && |rest[0].data| > 1 {
        assert |Body(rest)| > 0;
      }
    }
  }

  lemma {:induction false} PlainBeyond(cs: seq<Chunk>, left: nat)
    requires Plain(cs)
    ensures Beyond(cs, left).Some? ==> Plain(Beyond(cs, left).value)
  {
    if left > 0 && cs != [] {
      if |cs[0].data| > left {
        var rest := Beyond(cs, left).value;
        assert forall i | 1 <= i < |rest| :: rest[i] == cs[i];
      } else if cs[0].err == Nil {
        PlainBeyond(cs[1..], left - |cs[0].data|);
      }
    }
  }

  /** However a plain reader cuts up the body, the limit is enforced. */
  lemma PlainReaderLimited(cs: seq<Chunk>, limit: nat)
    requires Plain(cs)
    ensures CopiedRight(cs, limit)
  {
    PlainBeyond(cs, limit);
    LimitEnforcedIff(cs, limit);
  }

  /** And a body that is longer is refused as too large, not as a broken upload. */
  lemma PlainTooLong(cs: seq<Chunk>, limit: nat)
    requires Plain(cs) && |Body(cs)| > limit
    ensures CopyLimited(cs, limit).1 == TooLarge
  {
    PlainBeyond(cs, limit);
    CopyToLimit(cs, limit);
    assert Beyond(cs, limit).Some?;
    var rest := Beyond(cs, limit).value;
    ReadAdvances(rest, 1);
    assert rest != [] && rest[0].err == Nil;
  }

  /** A last byte that comes together with EOF is dropped: one byte too many is stored truncated. */
  lemma LastByteWithEOF()
    ensures var cs := [Chunk([7], Nil), Chunk([8], EOF)];
            Body(cs) == [7, 8] && CopyLimited(cs, 1) == ([7], EOF)
  {
    var cs := [Chunk([7], Nil), Chunk([8], EOF)];
    assert cs[1..] == [Chunk([8], EOF)];
    assert Beyond(cs, 1) == Some([Chunk([8], EOF)]);
    CopyToLimit(cs, 1);
    assert Body(cs)[..1] == [7];
  }

  /** An empty reply at the limit refuses a body that just fits. */
  lemma EmptyReadAtLimit()
    ensures var cs := [Chunk([7], Nil), Chunk([], Nil)];
            Body(cs) == [7] && EndOf(cs) == EOF && CopyLimited(cs, 1).1 == TooLarge
  {
    var cs := [Chunk([7], Nil), Chunk([], Nil)];
    assert cs[1..] == [Chunk([], Nil)] && cs[1..][1..] == [];
    assert Beyond(cs, 1) == Some([Chunk([], Nil)]);
    CopyToLimit(cs, 1);
  }

  // ---------------------------------------------------------------- the readers

  class Source {
    var chunks: seq<Chunk>

    constructor (cs: seq<Chunk>)
      ensures chunks == cs
    {
      chunks := cs;
    }

    method Read(max: nat) returns (c: Chunk)
      modifies this
      ensures (c, chunks) == ReadFrom(old(chunks), max)
    {
      if chunks == [] {
        return Chunk([], EOF);
      }
      c := chunks[0];
      if |c.data| <= max {
        chunks := chunks[1..];
      } else {
        chunks := [Chunk(c.data[max..], c.err)] + chunks[1..];
        c := Chunk(c.data[..max], Nil);
      }
    }
  }

  class LimitReader {
    const r: Source
    const limit: int
    var n: int

    ghost predicate Valid()
      reads this
    {
      0 <= n <= limit
    }

    constructor (r: Source, limit: int)
      requires limit >= 0
      ensures Valid() && this.r == r && this.limit == limit && n == 0
    {
      this.r, this.limit, n := r, limit, 0;
    }

    method Read(max: nat) returns (c: Chunk)
      requires Valid()
      modifies this, r
      ensures Valid() && n == old(n) + |c.data|
      ensures (c, r.chunks) == ReadLimited(old(r.chunks), limit - old(n), max)
    {
      if n > limit {
        return Chunk([], TooLarge);
      }
      var remaining := limit - n;
      if remaining == 0 {
        var probe := r.Read(1);
        if probe.err == EOF {
          return Chunk([], EOF);
        }
        if probe.err != Nil {
          return Chunk([], probe.err);
        }
        return Chunk([], TooLarge);
      }
      var p := max;
      if p > remaining {
        p := remaining;
      }
      c := r.Read(p);
      ReadBounded(old(r.chunks), p);
      n := n + |c.data|;
    }
  }

  lemma ReadBounded(cs: seq<Chunk>, max: nat)
    ensures |ReadFrom(cs, max).0.data| <= max
  {
  }

  class MD5Reader {
    const md5: Bytes -> string
    const src: Source
    const limited: LimitReader
    /** Whether it reads through the limit or straight from the body. */
    const capped: bool
    /** The bytes given to the digest. */
    var hashed: Bytes
    var n: int
    var err: Err

    ghost predicate Valid()
      reads this, limited
    {
      n == |hashed| && limited.r == src && limited.Valid()
    }

    /** What copying all that is still to be read would give. */
    ghost function Rest(): (Bytes, Err)
      requires Valid()
      reads this, src, limited
    {
      if capped then CopyLimited(src.chunks, limited.limit - limited.n) else CopyAll(src.chunks)
    }

    ghost function Left(): nat
      reads src
    {
      Weight(src.chunks)
    }

    /** A limit of zero or less is no limit. */
    constructor (md5: Bytes -> string, body: Source, limit: int)
      ensures Valid() && fresh(limited)
      ensures this.md5 == md5 && src == body && hashed == [] && err == Nil && src.chunks == old(body.chunks)
      ensures capped <==> limit > 0
      ensures capped ==> limited.limit == limit && limited.n == 0
    {
      this.md5, src, hashed, n, err := md5, body, [], 0, Nil;
      capped := limit > 0;
      limited := new LimitReader(body, if limit > 0 then limit else 0);
    }

    method Read() returns (c: Chunk)
      requires Valid()
      modifies this, src, limited
      ensures Valid() && hashed == old(hashed) + c.data
      ensures c.err != Nil ==> err == c.err && old(Rest()) == (c.data, c.err)
      ensures c.err == Nil ==>
                err == old(err) && Left() < old(Left()) && old(Rest()) == (c.data + Rest().0, Rest().1)
    {
      c := ReadInner();
      if |c.data| > 0 {
        hashed := hashed + c.data;
        n := n + |c.data|;
      }
      if c.err != Nil {
        err := c.err;
      }
    }

    /** The Read of the wrapped reader. */
    method ReadInner() returns (c: Chunk)
      requires Valid()
      modifies src, limited
      ensures Valid()
      ensures c.err != Nil ==> old(Rest()) == (c.data, c.err)
      ensures c.err == Nil ==> Left() < old(Left()) && old(Rest()) == (c.data + Rest().0, Rest().1)
    {
      if capped {
        CopyStep(src.chunks, limited.limit - limited.n);
        c := limited.Read(BUF_SIZE);
      } else {
        CopyAllStep(src.chunks);
        c := src.Read(BUF_SIZE);
      }
    }

    /** `done` has been read of a stream that gives `whole`. */
    ghost predicate OnTrack(whole: (Bytes, Err), done: Bytes)
      reads this, src, limited
    {
      Valid() && hashed == done && whole.0 == done + Rest().0 && whole.1 == Rest().1
    }

    method Advance(ghost whole: (Bytes, Err), ghost done: Bytes) returns (c: Chunk)
      requires OnTrack(whole, done)
      modifies this, src, limited
      ensures Valid() && hashed == done + c.data
      ensures c.err != Nil ==> err == c.err && whole == (done + c.data, c.err)
      ensures c.err == Nil ==> Left() < old(Left()) && OnTrack(whole, done + c.data)
    {
      c := Read();
      if c.err == Nil {
        assert done + (c.data + Rest().0) == (done + c.data) + Rest().0;
      }
    }

    function Size(): int
      reads this
    {
      n
    }

    function ETag(): string
      reads this
    {
      md5(hashed)
    }

    /** The error the caller asks for after the copy. */
    function Error(): Err
      reads this
    {
      if err != Nil && err != EOF then err else Nil
    }
  }

  // ---------------------------------------------------------------- the blob

  /** A cancelled context, a full disk, a failed sync or rename. */
  datatype PutOutcome = Stored(size: int) | Refused(err: Err) | Interrupted

  /** One object's path in the blob store. */
  class BlobFile {
    var content: Option<Bytes>

    constructor (content: Option<Bytes>)
      ensures this.content == content
    {
      this.content := content;
    }

    /** Copies until the reader reports an error; EOF is success. */
    method CopyWithContext(src: MD5Reader, interrupts: nat -> bool) returns (tmp: Bytes, err: Err, interrupted: bool)
      requires src.Valid() && src.hashed == []
      modifies src, src.src, src.limited
      ensures src.Valid()
      ensures !interrupted ==> (tmp, err) == old(src.Rest()) && err != Nil && src.err == err && src.hashed == tmp
      ensures (forall i :: !interrupts(i)) ==> !interrupted
    {
      tmp := [];
      ghost var whole := src.Rest();
      var i := 0;
      while true
        invariant src.OnTrack(whole, tmp)
        decreases src.Left()
      {
        if interrupts(i) {
          return tmp, Nil, true;
        }
        i := i + 1;
        var c := src.Advance(whole, tmp);
        tmp := tmp + c.data;
        if c.err != Nil {
          return tmp, c.err, false;
        }
      }
    }

    /** Writes a temporary file and renames it, so that a refused body leaves the blob as it was. */
    method Put(src: MD5Reader, interrupts: nat -> bool, diskFails: bool) returns (out: PutOutcome)
      requires src.Valid() && src.hashed == []
      modifies this, src, src.src, src.limited
      ensures src.Valid() && (out.Interrupted? ==> diskFails || exists i :: interrupts(i))
      ensures out.Stored? ==>
                && content == Some(old(src.Rest()).0) && old(src.Rest()).1 == EOF
                && out.size == src.Size() == |content.value| && src.ETag() == src.md5(content.value) && src.Error() == Nil
      ensures out.Refused? ==> out.err == old(src.Rest()).1 && out.err != EOF
      ensures !out.Stored? ==> content == old(content)
    {
      var tmp, err, interrupted := CopyWithContext(src, interrupts);
      if interrupted {
        return Interrupted;
      }
      if err != EOF {
        return Refused(err);
      }
      if diskFails {
        return Interrupted;
      }
      content := Some(tmp);
      return Stored(|tmp|);
    }
  }

  /** A whole upload: a body of at most `limit` bytes is stored unchanged under its length and MD5, a
      longer one is refused and the previous blob stays, exactly when the reader is fair at the limit. */
  method Upload(blob: BlobFile, md5: Bytes -> string, chunks: seq<Chunk>, limit: int)
    returns (out: PutOutcome, etag: string)
    modifies blob
    ensures out.Stored? ==> blob.content.Some? && out.size == |blob.content.value| && etag == md5(blob.content.value)
    ensures !out.Stored? ==> blob.content == old(blob.content) && out.Refused?
    ensures limit <= 0 ==> (out.Stored? <==> EndOf(chunks) == EOF) && (out.Stored? ==> blob.content == Some(Body(chunks)))
    ensures limit > 0 ==>
              (FairAt(chunks, limit) <==>
                && (out.Stored? <==> EndOf(chunks) == EOF && |Body(chunks)| <= limit)
                && (out.Stored? ==> blob.content == Some(Body(chunks))))
  {
    var body := new Source(chunks);
    var hasher := new MD5Reader(md5, body, limit);
    if limit <= 0 {
      CopyAllIsBody(chunks);
    } else {
      LimitEnforcedIff(chunks, limit);
    }
    out := blob.Put(hasher, _ => false, false);
    etag := hasher.ETag();
  }
}
