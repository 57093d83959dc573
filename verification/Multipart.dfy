/**
  S3Storage.Put (`internal/backup/storage_s3.go`): one PutObject for a short
  stream, a multipart upload through one reused buffer for a long one. Every
  call to the store and every read may fail, and a call to the store that reports
  an error may have worked.
  */
module Multipart {
  import opened Basics

  datatype Part = Part(number: int, body: seq<Byte>)

  datatype ReadStatus = Full | Eof | UnexpectedEof | ReadError

  const DEFAULT_S3_PART_SIZE := 64 * 1024 * 1024

  /** int32 arithmetic wraps around. */
  function Int32(n: int): (r: int)
    ensures -0x8000_0000 <= r < 0x8000_0000
    ensures -0x8000_0000 <= n < 0x8000_0000 ==> r == n
  {
    (n + 0x8000_0000) % 0x1_0000_0000 - 0x8000_0000
  }

  lemma Int32Succ(n: int)
    ensures Int32(Int32(n) + 1) == Int32(n + 1)
  {}

  /** The bodies one after the other. */
  function Concat(parts: seq<Part>): seq<Byte> {
    if parts == [] then [] else Concat(parts[..|parts| - 1]) + parts[|parts| - 1].body
  }

  predicate Ascending(parts: seq<Part>) {
    forall i, j :: 0 <= i < j < |parts| ==> parts[i].number < parts[j].number
  }

  /** `parts` are the first parts of an upload: numbered by an int32 counter, all of them full. */
  predicate FullParts(parts: seq<Part>, size: nat) {
    && (forall i :: 0 <= i < |parts| ==> parts[i].number == Int32(i + 1))
    && (forall i :: 0 <= i < |parts| ==> |parts[i].body| == size)
  }

  /** The shape of a finished upload: the last part may be short but is not empty. */
  predicate WellCut(parts: seq<Part>, size: nat) {
    && |parts| > 0
    && FullParts(parts[..|parts| - 1], size)
    && parts[|parts| - 1].number == Int32(|parts|)
    && 0 < |parts[|parts| - 1].body| <= size
  }

  lemma ConcatSnoc(parts: seq<Part>, p: Part)
    ensures Concat(parts + [p]) == Concat(parts) + p.body
  {
    assert (parts + [p])[..|parts|] == parts;
  }

  /** One more part after full ones. */
  lemma AddPart(parts: seq<Part>, body: seq<Byte>, size: nat)
    requires FullParts(parts, size) && 0 < |body| <= size
    ensures var more := parts + [Part(Int32(|parts| + 1), body)];
            && WellCut(more, size) && Concat(more) == Concat(parts) + body
            && (|body| == size ==> FullParts(more, size))
  {
    ConcatSnoc(parts, Part(Int32(|parts| + 1), body));
    assert (parts + [Part(Int32(|parts| + 1), body)])[..|parts|] == parts;
  }

  lemma {:induction false} ConcatLength(parts: seq<Part>, size: nat)
    requires FullParts(parts, size)
    ensures |Concat(parts)| == |parts| * size
  {
    if parts == [] {
    } else {
      ConcatLength(parts[..|parts| - 1], size);
      assert (|parts| - 1) * size + size == |parts| * size;
    }
  }

  /** The number of parts of a stream is its length divided by the part size, rounded up. */
  lemma PartCount(parts: seq<Part>, size: nat)
    requires size > 0 && WellCut(parts, size)
    ensures (|parts| - 1) * size < |Concat(parts)| <= |parts| * size
  {
    ConcatLength(parts[..|parts| - 1], size);
  }

  /** The int32 counter numbers the parts 1, 2, ..., k exactly as long as there are fewer than 2^31 of them. */
  lemma NumberedFromOne(parts: seq<Part>, size: nat)
    requires WellCut(parts, size)
    ensures (forall i :: 0 <= i < |parts| ==> parts[i].number == i + 1) <==> |parts| < 0x8000_0000
  {
    var n := |parts|;
    forall i | 0 <= i < n ensures parts[i].number == Int32(i + 1) {
      assert i < n - 1 ==> parts[i] == parts[..n - 1][i];
    }
    if n >= 0x8000_0000 {
      assert parts[0x7fff_ffff].number == Int32(0x8000_0000) == -0x8000_0000;
    }
  }

  /** An io.Reader that yields `rest` and then EOF, or an error at any point. */
  class Stream {
    var rest: seq<Byte>

    constructor (data: seq<Byte>)
      ensures rest == data
    {
      rest := data;
    }

    /** io.ReadFull into the whole of `buf`. */
    method ReadFull(buf: array<Byte>) returns (n: nat, status: ReadStatus)
      requires buf.Length > 0
      modifies this, buf
      ensures n <= buf.Length
      ensures !status.ReadError? ==> n <= |old(rest)| && buf[..n] == old(rest)[..n] && rest == old(rest)[n..]
      ensures !status.ReadError? && !status.Eof? && !status.UnexpectedEof? ==> n == buf.Length
      ensures status.Eof? ==> n == 0 && rest == []
      ensures status.UnexpectedEof? ==> 0 < n < buf.Length && rest == []
      ensures |rest| <= |old(rest)|
    {
      n := if |rest| < buf.Length then |rest| else buf.Length;
      var i := 0;
      while i < n
        invariant 0 <= i <= n
        invariant rest == old(rest)
        invariant forall k :: 0 <= k < i ==> buf[k] == rest[k]
      {
        buf[i] := rest[i];
        i := i + 1;
      }
      rest := rest[n..];
      var broken: bool := *;
      status := if broken then ReadError
      else if n == buf.Length then Full
      else if n == 0 then Eof
      else UnexpectedEof;
    }

    /** The read at the end of an iteration: more bytes for another part, the end (`ok`), or an error. */
    method Next(buf: array<Byte>, ghost sent: seq<Byte>, ghost all: seq<Byte>) returns (n: nat, more: bool, ok: bool)
      requires buf.Length > 0 && sent + rest == all
      modifies this, buf
      ensures more ==> 0 < n <= buf.Length && sent + buf[..n] + rest == all && |rest| + n == |old(rest)|
      ensures more && n < buf.Length ==> rest == []
      ensures !more && ok ==> sent == all
    {
      var status;
      n, status := ReadFull(buf);
      more := !status.Eof? && !status.ReadError?;
      ok := !status.ReadError?;
      if ok {
        assert old(rest) == old(rest)[..n] + old(rest)[n..];
        assert sent + (old(rest)[..n] + old(rest)[n..]) == all;
        assert sent + buf[..n] + rest == sent + (buf[..n] + rest);
      }
    }
  }

  /** The bucket, seen at one key. `creation` is how it answers CreateMultipartUpload. */
  class Bucket {
    var stored: seq<seq<Byte>>   // the object under the key: none or one
    var created: bool            // a multipart upload was created
    var pending: bool            // it is still there, neither completed nor aborted
    var parts: seq<Part>         // the parts it acknowledged, in the order they were sent
    var abortTried: bool
    const creation: Fate

    constructor (creation: Fate)
      ensures stored == [] && !created && !pending && parts == [] && !abortTried && this.creation == creation
    {
      stored, created, pending, parts, abortTried := [], false, false, [], false;
      this.creation := creation;
    }

    method PutObject(body: seq<Byte>) returns (ok: bool)
      modifies this`stored
      ensures stored == old(stored) || stored == [body]
      ensures ok ==> stored == [body]
    {
      var fate: Fate := *;
      if fate != FailedNoEffect {
        stored := [body];
      }
      ok := fate == Done;
    }

    method CreateUpload() returns (ok: bool)
      modifies this`created, this`pending, this`parts
      ensures ok == creation.Done?
      ensures if creation.FailedNoEffect? then unchanged(this) else created && pending && parts == []
    {
      if !creation.FailedNoEffect? {
        created, pending, parts := true, true, [];
      }
      ok := creation.Done?;
    }

    method UploadPart(number: int, body: seq<Byte>) returns (ok: bool)
      modifies this`parts
      ensures ok ==> parts == old(parts) + [Part(number, body)]
      ensures !ok ==> parts == old(parts)
    {
      ok := *;
      if ok {
        parts := parts + [Part(number, body)];
      }
    }

    /** The object becomes the listed parts in order; a list that is not ascending is refused. */
    method CompleteUpload() returns (ok: bool)
      modifies this`stored, this`pending
      ensures if pending == old(pending) then stored == old(stored) else stored == [Concat(parts)] && Ascending(parts)
      ensures old(pending) && ok ==> !pending
      ensures !old(pending) ==> !ok && !pending
    {
      var fate: Fate := *;
      ok := false;
      if pending && Ascending(parts) && fate != FailedNoEffect {
        stored, pending := [Concat(parts)], false;
        ok := fate == Done;
      }
    }

    method AbortUpload()
      modifies this`abortTried, this`pending
      ensures abortTried && (pending ==> old(pending))
    {
      abortTried := true;
      var effect: bool := *;
      if effect {
        pending := false;
      }
    }

    /** Nothing has been uploaded in parts yet. */
    predicate Idle()
      reads this
    {
      !created && !pending && !abortTried
    }

    /**
      What is left of a multipart upload. Of a failed Put it is aborted exactly if
      its creation was acknowledged: with an error there is no upload ID to abort,
      and an upload created all the same stays.
      */
    predicate CleanedUp(ok: bool)
      reads this
    {
      && (abortTried <==> created && !ok && creation.Done?)
      && (pending ==> created && !ok && (creation.Done? ==> abortTried))
      && (created && creation.FailedButApplied? ==> !ok && pending)
      && (created ==> !creation.FailedNoEffect?)
    }

    /**
      Put. Whatever fails, the key holds what it held or the whole stream; on
      success it holds the whole stream.
      */
    method Put(r: Stream, partSize: int) returns (ok: bool)
      requires Idle()
      modifies this, r
      ensures stored == old(stored) || stored == [old(r.rest)]
      ensures ok ==> stored == [old(r.rest)]
      // a short stream goes in one request, a long one in parts
      ensures var size := if partSize <= 0 then 67_108_864 else partSize;
              && (|old(r.rest)| < size ==> !created)
              && (ok && |old(r.rest)| >= size ==>
                    created && WellCut(parts, size) && Concat(parts) == old(r.rest) && Ascending(parts))
      ensures CleanedUp(ok)
    {
      var size := if partSize <= 0 then DEFAULT_S3_PART_SIZE else partSize;
      var buf := new Byte[size];
      var n, status := r.ReadFull(buf);
      if status.Eof? || status.UnexpectedEof? {
        assert buf[..n] == old(r.rest);
        ok := PutObject(buf[..n]);
      } else if status.ReadError? {
        ok := false;
      } else {
        assert buf[..] == buf[..n];
        ok := PutMultipart(buf, r, old(r.rest));
      }
    }

    /** putMultipart: `first` is full of the beginning of the stream and is reused for every part. */
    method PutMultipart(first: array<Byte>, r: Stream, ghost all: seq<Byte>) returns (ok: bool)
      requires first.Length > 0 && Idle()
      requires first[..] + r.rest == all
      modifies this, r, first
      ensures stored == old(stored) || stored == [all]
      ensures ok ==> stored == [all]
      ensures ok ==> created && WellCut(parts, first.Length) && Concat(parts) == all && Ascending(parts)
      ensures created <==> !creation.FailedNoEffect?
      ensures !creation.Done? ==> !ok && stored == old(stored)
      ensures CleanedUp(ok)
    {
      ok := CreateUpload();
      if !ok {
        return;
      }
      ok := SendParts(first, r, all);
      if ok {
        ok := CompleteUpload();
      }
      if !ok {
        AbortUpload();
      }
    }

    /** The loop of putMultipart. */
    method SendParts(buf: array<Byte>, r: Stream, ghost all: seq<Byte>) returns (ok: bool)
      requires buf.Length > 0 && parts == []
      requires buf[..] + r.rest == all
      modifies this`parts, r, buf
      ensures ok ==> WellCut(parts, buf.Length) && Concat(parts) == all
    {
      var n, num := buf.Length, 1;
      assert buf[..n] == buf[..];
      while true
        invariant 0 < n <= buf.Length
        invariant FullParts(parts, buf.Length)
        invariant num == Int32(|parts| + 1)
        invariant Concat(parts) + buf[..n] + r.rest == all
        invariant n < buf.Length ==> r.rest == []
        decreases |r.rest| + (if n == buf.Length then 1 else 0)
      {
        AddPart(parts, buf[..n], buf.Length);
        ok := UploadPart(num, buf[..n]);
        if !ok {
          return;
        }
        assert Concat(parts) + r.rest == all;
        if n < buf.Length {
          return;
        }
        var more;
        n, more, ok := r.Next(buf, Concat(parts), all);
        if !more {
          return;
        }
        Int32Succ(|parts|);
        num := Int32(num + 1);
      }
    }
  }

  /** A creation that works and reports an error: Put fails, no abort is tried, and the upload stays. */
  method LeftoverUpload(buf: array<Byte>, r: Stream) returns (b: Bucket, ok: bool)
    requires buf.Length > 0
    modifies r, buf
    ensures !ok && b.stored == [] && b.pending && !b.abortTried
  {
    b := new Bucket(FailedButApplied);
    ok := b.PutMultipart(buf, r, buf[..] + r.rest);
  }
}
