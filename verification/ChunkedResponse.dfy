/**
 * The body output of `ServerResponse` in lib/lws/response.js, against the chunked coding of
 * section 7.1 of RFC 9112.
 *
 * Chunks are bytes; a string stands for its UTF-8 encoding.  The socket is the bytes written to it
 * behind the header block.
 */
module ChunkedResponse {
  import opened Numerals
  import opened Seqs
  import opened Utf8
  import opened Wrappers

  // Chunked coding

  const CRLF: seq<byte> := [13, 10]

  function HexBytes(n: nat): seq<byte> {
    Encode(Hex(n))
  }

  /** `writeChunk`; an empty chunk writes nothing, since it would end the body. */
  function ChunkBytes(c: seq<byte>): seq<byte> {
    if c == [] then [] else HexBytes(|c|) + (CRLF + (c + CRLF))
  }

  /** `0\r\n\r\n` */
  const LAST_CHUNK: seq<byte> := [48, 13, 10, 13, 10]

  function Emit(chunks: seq<seq<byte>>): seq<byte> {
    FlatMap(ChunkBytes, chunks)
  }

  /** The chunk size at `at`, as far as its digits go, on top of the value of digits before. */
  function SizeFrom(s: seq<byte>, at: nat, value: nat): (nat, nat)
    decreases |s| - at
  {
    if at < |s| && IsHexByte(s[at]) then SizeFrom(s, at + 1, 16 * value + HexByteValue(s[at])) else (value, at)
  }

  predicate CrlfAt(s: seq<byte>, at: nat) {
    at + 2 <= |s| && s[at] == 13 && s[at + 1] == 10
  }

  /**
   * A decoder for chunked bodies without extensions and trailers: the body that starts at `at`, and
   * where it ends.
   */
  function DecodeChunked(s: seq<byte>, at: nat): Option<(seq<byte>, nat)>
    decreases |s| - at
  {
    var (size, i) := SizeFrom(s, at, 0);
    if i <= at || !CrlfAt(s, i) then None
    else if size == 0 then if CrlfAt(s, i + 2) then Some(([], i + 4)) else None
    else if !CrlfAt(s, i + 2 + size) then None
    else
      var rest :- DecodeChunked(s, i + 2 + size + 2);
      Some((s[i + 2..i + 2 + size] + rest.0, rest.1))
  }

  // Reading one chunk

  lemma {:induction false} SizeOfDigits(s: seq<byte>, at: nat, digits: string, done: nat, value: nat)
    requires AllHex(digits) && done <= |digits| && value == HexValue(digits[..done])
    requires StandsAt(s, at, Encode(digits)) && |Encode(digits)| == |digits|
    requires forall k :: 0 <= k < |digits| ==> Encode(digits)[k] == digits[k] as int
    requires CrlfAt(s, at + |digits|)
    ensures SizeFrom(s, at + done, value) == (HexValue(digits), at + |digits|)
    decreases |digits| - done
  {
    if done == |digits| {
      assert digits[..done] == digits;
    } else {
      var more := digits[..done + 1];
      assert more[..|more| - 1] == digits[..done];
      assert s[at + done] == digits[done] as int;
      assert IsHex(digits[done]);
      SizeOfDigits(s, at, digits, done + 1, 16 * value + HexByteValue(s[at + done]));
    }
  }

  lemma SizeReads(s: seq<byte>, at: nat, n: nat)
    requires StandsAt(s, at, HexBytes(n)) && CrlfAt(s, at + |HexBytes(n)|)
    ensures SizeFrom(s, at, 0) == (n, at + |HexBytes(n)|) && |HexBytes(n)| > 0
  {
    HexValueOfHex(n);
    EncodeAscii(Hex(n));
    assert Hex(n)[..0] == "";
    SizeOfDigits(s, at, Hex(n), 0, 0);
  }

  lemma CrlfStands(s: seq<byte>, at: nat)
    requires StandsAt(s, at, CRLF)
    ensures CrlfAt(s, at)
  {
    assert s[at] == CRLF[0] && s[at + 1] == CRLF[1];
  }

  lemma ChunkReads(s: seq<byte>, at: nat, c: seq<byte>)
    requires c != [] && StandsAt(s, at, ChunkBytes(c))
    ensures
      var rest := DecodeChunked(s, at + |ChunkBytes(c)|);
      DecodeChunked(s, at) == if rest.None? then None else Some((c + rest.value.0, rest.value.1))
  {
    hide HexBytes, SizeFrom;
    var h := HexBytes(|c|);
    StandsSplit(s, at, h, CRLF + (c + CRLF));
    StandsSplit(s, at + |h|, CRLF, c + CRLF);
    StandsSplit(s, at + |h| + 2, c, CRLF);
    CrlfStands(s, at + |h|);
    CrlfStands(s, at + |h| + 2 + |c|);
    SizeReads(s, at, |c|);
    assert s[at + |h| + 2..at + |h| + 2 + |c|] == c;
  }

  // Reading a whole body

  lemma LastReads(s: seq<byte>, at: nat)
    requires StandsAt(s, at, LAST_CHUNK)
    ensures DecodeChunked(s, at) == Some(([], at + 5))
  {
    assert s[at] == LAST_CHUNK[0] && s[at + 1] == LAST_CHUNK[1] && s[at + 2] == LAST_CHUNK[2];
    assert s[at + 3] == LAST_CHUNK[3] && s[at + 4] == LAST_CHUNK[4];
    assert SizeFrom(s, at + 1, 0) == (0, at + 1);
    assert SizeFrom(s, at, 0) == (0, at + 1);
  }

  lemma {:induction false} BodyReads(s: seq<byte>, at: nat, chunks: seq<seq<byte>>)
    requires StandsAt(s, at, Emit(chunks) + LAST_CHUNK)
    ensures DecodeChunked(s, at) == Some((Flatten(chunks), at + |Emit(chunks)| + 5))
    decreases |chunks|
  {
    hide DecodeChunked, ChunkBytes;
    if chunks == [] {
      assert Emit(chunks) + LAST_CHUNK == LAST_CHUNK;
      LastReads(s, at);
    } else {
      var first := ChunkBytes(chunks[0]);
      var rest := Emit(chunks[1..]);
      Assoc(first, rest, LAST_CHUNK);
      StandsSplit(s, at, first, rest + LAST_CHUNK);
      BodyReads(s, at + |first|, chunks[1..]);
      if chunks[0] != [] {
        ChunkReads(s, at, chunks[0]);
      } else {
        EmptyChunk();
        assert chunks[0] + Flatten(chunks[1..]) == Flatten(chunks[1..]);
      }
    }
  }

  lemma EmptyChunk()
    ensures ChunkBytes([]) == []
  {
  }

  /**
   * Whatever the chunks, empty ones included, their coding decodes to their concatenation, and
   * bytes behind the last chunk are not part of the body.
   */
  lemma ChunkedRoundTrip(chunks: seq<seq<byte>>, after: seq<byte>)
    ensures DecodeChunked(Emit(chunks) + LAST_CHUNK + after, 0) ==
      Some((Flatten(chunks), |Emit(chunks)| + 5))
  {
    hide DecodeChunked, ChunkBytes;
    BodyReads(Emit(chunks) + LAST_CHUNK + after, 0, chunks);
  }

  // The response

  datatype Field = ContentLength | TransferEncoding | OtherField(name: string)

  /** What `wsi.respond` was given. */
  datatype Head = Head(status: int, contentLength: Option<string>, fields: map<Field, string>)

  class ServerResponse {
    var status: int
    var headers: map<Field, string>
    var ended: bool
    var headersSent: bool
    var chunked: bool
    /** The socket: the header block, the bytes behind it, and how often the final flag was set. */
    var head: Option<Head>
    var wire: seq<byte>
    var finals: nat
    /** The chunks of the body, and those written after its end. */
    ghost var written: seq<seq<byte>>
    ghost var late: seq<seq<byte>>

    constructor ()
      ensures Valid() && !headersSent && !ended && headers == map[] && written == [] && late == []
    {
      status, headers, ended, headersSent, chunked := 200, map[], false, false, false;
      head, wire, finals := None, [], 0;
      written, late := [], [];
    }

    ghost predicate Valid()
      reads this
    {
      && (headersSent <==> head.Some?)
      && (!headersSent ==> wire == [] && written == [] && !ended && !chunked)
      && (late != [] ==> ended)
      && (chunked ==> head.Some? && head.value.contentLength.None?)
      && wire == Coded(chunked, written) + (if chunked && ended then LAST_CHUNK else []) + Coded(chunked, late)
      && finals == if ended then 1 else 0
    }

    /** `set`; false stands for the error that the headers are already sent. */
    method Set(name: Field, value: string) returns (ok: bool)
      requires Valid()
      modifies this
      ensures Valid() && ok == !old(headersSent)
      ensures headers == if ok then old(headers)[name := value] else old(headers)
      ensures headersSent == old(headersSent) && wire == old(wire) && written == old(written) && late == old(late)
      ensures ended == old(ended) && chunked == old(chunked) && head == old(head)
    {
      if headersSent {
        return false;
      }
      headers := headers[name := value];
      return true;
    }

    /** `#flushHeaders` */
    method FlushHeaders()
      modifies this`headersSent, this`head
      ensures headersSent
      ensures head == if old(headersSent) then old(head) else Some(HeadFor(status, headers))
    {
      if headersSent {
        return;
      }
      headersSent := true;
      var contentLength := if ContentLength in headers then Some(headers[ContentLength]) else None;
      head := Some(Head(status, contentLength, headers - {ContentLength}));
    }

    /** `wsi.write` of bytes, with or without the final flag. */
    method WsiWrite(bytes: seq<byte>, final: bool)
      modifies this`wire, this`finals
      ensures wire == old(wire) + bytes && finals == old(finals) + (if final then 1 else 0)
    {
      wire := wire + bytes;
      if final {
        finals := finals + 1;
      }
    }

    /** `writeChunk` */
    method WriteChunk(chunk: seq<byte>)
      modifies this`wire, this`finals
      ensures wire == old(wire) + ChunkBytes(chunk) && finals == old(finals)
    {
      if |chunk| == 0 {
        assert ChunkBytes(chunk) == [];
        return;
      }
      hide Hex, Encode;
      var size := HexBytes(|chunk|);
      WsiWrite(size + CRLF, false);
      WsiWrite(chunk, false);
      WsiWrite(CRLF, false);
      assert old(wire) + (size + CRLF) + chunk + CRLF == old(wire) + (size + (CRLF + (chunk + CRLF)));
    }

    /** `write(chunk)`, where no chunk is `null` or `undefined`. */
    method Write(chunk: Option<seq<byte>>)
      requires Valid()
      modifies this
      ensures Valid() && headersSent && ended == old(ended)
      ensures !old(headersSent) ==> (chunked <==> ContentLength !in old(headers) && TransferEncoding !in old(headers))
      ensures old(headersSent) ==> chunked == old(chunked) && head == old(head)
      ensures !ended ==> written == old(written) + Given(chunk) && late == old(late)
      ensures ended ==> written == old(written) && late == old(late) + Given(chunk)
      ensures wire == old(wire) + Coded(chunked, Given(chunk))
    {
      hide Coded, ChunkBytes;
      NothingCoded();
      if !headersSent && ContentLength !in headers && TransferEncoding !in headers {
        chunked := true;
        headers := headers[TransferEncoding := "chunked"];
      }
      FlushHeaders();
      if chunk.Some? {
        ghost var before := wire;
        if chunked {
          WriteChunk(chunk.value);
        } else {
          WsiWrite(chunk.value, false);
        }
        CodedGiven(chunked, if ended then late else written, chunk);
        assert wire == before + Coded(chunked, Given(chunk));
        if ended {
          Assoc(Coded(chunked, written) + (if chunked then LAST_CHUNK else []), Coded(chunked, late),
            Coded(chunked, Given(chunk)));
          late := late + [chunk.value];
        } else {
          written := written + [chunk.value];
        }
      }
    }

    /** `end(chunk)` */
    method End(chunk: Option<seq<byte>>)
      requires Valid()
      modifies this
      ensures Valid() && ended && late == old(late)
      ensures old(ended) ==> wire == old(wire) && written == old(written) && head == old(head)
      ensures !old(ended) ==> written == old(written) + Given(chunk)
      ensures old(headersSent) ==> head == old(head) && chunked == old(chunked)
      ensures !old(headersSent) && ContentLength !in old(headers) ==>
                !chunked && head.value.contentLength == Some(Decimal(|wire|))
    {
      if ended {
        return;
      }
      hide Coded, ChunkBytes, Decimal;
      NothingCoded();
      if !headersSent && ContentLength !in headers {
        var len := if chunk.None? then 0 else |chunk.value|;
        headers := headers[ContentLength := Decimal(len)];
      }
      FlushHeaders();
      EndBody(chunk);
      CodedGiven(chunked, [], chunk);
    }

    /** The part of `end` that writes. */
    method EndBody(chunk: Option<seq<byte>>)
      requires Valid() && headersSent && !ended
      modifies this`wire, this`finals, this`written, this`ended
      ensures Valid() && ended && written == old(written) + Given(chunk)
      ensures wire == old(wire) + Coded(chunked, Given(chunk)) + (if chunked then LAST_CHUNK else [])
    {
      hide Coded, ChunkBytes;
      NothingCoded();
      CodedGiven(chunked, written, chunk);
      assert wire == Coded(chunked, written);
      if chunked {
        if chunk.Some? {
          WriteChunk(chunk.value);
        }
        WsiWrite(LAST_CHUNK, true);
      } else if chunk.Some? {
        WsiWrite(chunk.value, true);
      } else {
        WsiWrite([], true);
      }
      written := written + Given(chunk);
      ended := true;
    }
  }

  function Given(chunk: Option<seq<byte>>): seq<seq<byte>> {
    if chunk.Some? then [chunk.value] else []
  }

  function HeadFor(status: int, headers: map<Field, string>): Head {
    Head(status, if ContentLength in headers then Some(headers[ContentLength]) else None, headers - {ContentLength})
  }

  /** Chunks as they stand on the wire. */
  function Coded(chunked: bool, chunks: seq<seq<byte>>): seq<byte> {
    if chunked then Emit(chunks) else Flatten(chunks)
  }

  lemma NothingCoded()
    ensures Coded(true, []) == [] && Coded(false, []) == []
  {
  }

  lemma CodedOne(chunked: bool, c: seq<byte>)
    ensures Coded(chunked, [c]) == if chunked then ChunkBytes(c) else c
  {
    hide ChunkBytes;
    FlatMapOne(ChunkBytes, c);
    FlatMapOne(Whole, c);
  }

  lemma CodedGrows(chunked: bool, chunks: seq<seq<byte>>, c: seq<byte>)
    ensures Coded(chunked, chunks + [c]) == Coded(chunked, chunks) + Coded(chunked, [c])
  {
    hide ChunkBytes;
    FlatMapAppend(ChunkBytes, chunks, [c]);
    FlattenAppend(chunks, [c]);
  }

  lemma CodedGiven(chunked: bool, chunks: seq<seq<byte>>, chunk: Option<seq<byte>>)
    ensures Coded(chunked, chunks + Given(chunk)) == Coded(chunked, chunks) + Coded(chunked, Given(chunk))
    ensures Coded(chunked, Given(chunk)) ==
      if chunk.None? then [] else if chunked then ChunkBytes(chunk.value) else chunk.value
  {
    hide ChunkBytes;
    if chunk.None? {
      assert chunks + [] == chunks;
    } else {
      CodedOne(chunked, chunk.value);
      CodedGrows(chunked, chunks, chunk.value);
    }
  }

  predicate AllEmpty(chunks: seq<seq<byte>>) {
    forall k :: 0 <= k < |chunks| ==> chunks[k] == []
  }

  lemma {:induction false} EmptyCoded(chunks: seq<seq<byte>>)
    ensures Emit(chunks) == [] <==> AllEmpty(chunks)
  {
    if chunks != [] {
      EmptyCoded(chunks[1..]);
      assert AllEmpty(chunks) <==> chunks[0] == [] && AllEmpty(chunks[1..]) by {
        assert forall k :: 0 < k < |chunks| ==> chunks[k] == chunks[1..][k - 1];
        assert forall k :: 0 <= k < |chunks| - 1 ==> chunks[1..][k] == chunks[k + 1];
      }
    }
  }

  /**
   * A finished chunked response decodes to everything written before its end.  What was written
   * later is left over, where the next response would begin: decoding uses up the wire exactly when
   * every later chunk is empty.
   */
  lemma ResponseDecodes(r: ServerResponse)
    requires r.Valid() && r.ended && r.chunked
    ensures DecodeChunked(r.wire, 0) == Some((Flatten(r.written), |r.wire| - |Emit(r.late)|))
    ensures DecodeChunked(r.wire, 0) == Some((Flatten(r.written), |r.wire|)) <==> AllEmpty(r.late)
  {
    hide DecodeChunked, Emit;
    ChunkedRoundTrip(r.written, Emit(r.late));
    EmptyCoded(r.late);
  }

  lemma PlainWire(r: ServerResponse)
    requires r.Valid() && !r.chunked
    ensures r.wire == Flatten(r.written + r.late)
  {
    FlattenAppend(r.written, r.late);
  }

  /** The chunks of a sequence of writes, some of them without one. */
  function Chunks(writes: seq<Option<seq<byte>>>): seq<seq<byte>> {
    FlatMap(Given, writes)
  }

  /**
   * A whole response: any writes, the end, and any writes after it.  With a write, of `null` even, the
   * body is chunked and decodes to what was given before the end; without one its declared length is
   * the number of bytes sent.
   */
  method Respond(writes: seq<Option<seq<byte>>>, last: Option<seq<byte>>, later: seq<Option<seq<byte>>>)
    returns (r: ServerResponse)
    ensures r.Valid() && r.ended && r.finals == 1 && r.head.Some? && (r.chunked <==> writes != [])
    ensures r.written == Chunks(writes) + Given(last) && r.late == Chunks(later)
    ensures writes != [] ==>
              var body := Flatten(Chunks(writes) + Given(last));
              && DecodeChunked(r.wire, 0) == Some((body, |r.wire| - |Emit(Chunks(later))|))
              && (DecodeChunked(r.wire, 0) == Some((body, |r.wire|)) <==> AllEmpty(Chunks(later)))
    ensures writes == [] ==>
              && r.wire == Flatten(Given(last) + Chunks(later))
              && r.head.value.contentLength == Some(Decimal(|Flatten(Given(last))|))
  {
    hide Emit, Flatten, DecodeChunked, Given;
    r := new ServerResponse();
    for i := 0 to |writes|
      invariant r.Valid() && !r.ended && r.late == [] && r.written == Chunks(writes[..i])
      invariant if i == 0 then !r.headersSent && r.headers == map[] else r.headersSent && r.chunked
      invariant fresh(r)
    {
      assert writes[..i + 1] == writes[..i] + [writes[i]];
      FlatMapSnoc(Given, writes[..i], writes[i]);
      r.Write(writes[i]);
    }
    assert writes[..|writes|] == writes;
    r.End(last);
    ghost var head, written, wire := r.head, r.written, r.wire;
    for i := 0 to |later|
      invariant r.Valid() && r.ended && r.late == Chunks(later[..i]) && r.written == written && r.head == head
      invariant r.chunked == (writes != []) && r.headersSent && fresh(r)
    {
      assert later[..i + 1] == later[..i] + [later[i]];
      FlatMapSnoc(Given, later[..i], later[i]);
      r.Write(later[i]);
    }
    assert later[..|later|] == later;
    if writes != [] {
      ResponseDecodes(r);
    } else {
      assert r.written == Given(last);
      PlainWire(r);
    }
  }

  lemma ChunksOne(c: seq<byte>)
    ensures Chunks([Some(c)]) == [c] && Emit([c]) == ChunkBytes(c) && Flatten([c] + Given(None)) == c
    ensures c != [] ==> |ChunkBytes(c)| > 0
  {
    FlatMapOne(Given, Some(c));
    FlatMapOne(ChunkBytes, c);
    FlatMapOne(Whole, c);
    assert [c] + Given(None) == [c];
  }

  /** One chunk, the end, and one more chunk: the decoder stops in front of the bytes of the last. */
  method LateChunk(a: seq<byte>, b: seq<byte>) returns (r: ServerResponse)
    requires b != []
    ensures r.wire == ChunkBytes(a) + LAST_CHUNK + ChunkBytes(b)
    ensures DecodeChunked(r.wire, 0) == Some((a, |r.wire| - |ChunkBytes(b)|)) && |ChunkBytes(b)| > 0
  {
    hide DecodeChunked, Emit, ChunkBytes;
    ChunksOne(a);
    ChunksOne(b);
    r := Respond([Some(a)], None, [Some(b)]);
  }
}
