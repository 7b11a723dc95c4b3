/**
  The incremental MJPEG splitter: it collects chunks in a buffer, cuts out each stretch from a start
  marker to the next end marker, and throws away what it no longer needs.

  `Parse` reads a whole stream at once; `Frames` is the chunked loop and is proved to agree with it
  after every chunk. `Splits` describes the result without any scanning, and determines it.
*/
module Splitter {

  type Byte = i: int | 0 <= i < 256

  type Bytes = seq<Byte>

  // The second bytes of the markers that begin and end an image (ITU-T T.81, section B.1.1.3).
  const SOI: Byte := 0xD8
  const EOI: Byte := 0xD9

  predicate MarkAt(b: Bytes, second: Byte, i: int) {
    0 <= i && i + 1 < |b| && b[i] == 0xFF && b[i + 1] == second
  }

  /** Index of the first such marker at or after `from`, or -1. */
  function Find(b: Bytes, second: Byte, from: nat): (r: int)
    ensures r == -1 || from <= r <= |b| - 2
    decreases |b| - from
  {
    if from + 1 >= |b| then -1
    else if MarkAt(b, second, from) then from
    else Find(b, second, from + 1)
  }

  lemma {:induction false} FindIsFirst(b: Bytes, second: Byte, from: nat)
    ensures var r := Find(b, second, from);
            && (r != -1 ==> MarkAt(b, second, r) && forall i | from <= i < r :: !MarkAt(b, second, i))
            && (r == -1 ==> forall i | from <= i :: !MarkAt(b, second, i))
    decreases |b| - from
  {
    if from + 1 < |b| && !MarkAt(b, second, from) {
      FindIsFirst(b, second, from + 1);
    }
  }

  datatype Parsed = Parsed(frames: seq<Bytes>, rest: Bytes)

  function LastTwo(b: Bytes): Bytes {
    if |b| > 2 then b[|b| - 2..] else b
  }

  /** Where the first image begins and where its end marker is; -1 if there is none. */
  function Start(b: Bytes): (r: int)
    ensures r == -1 || 0 <= r <= |b| - 2
  {
    Find(b, SOI, 0)
  }

  function End(b: Bytes): (r: int)
    ensures r == -1 || (Start(b) != -1 && Start(b) + 2 <= r <= |b| - 2)
  {
    if Start(b) == -1 then -1 else Find(b, EOI, Start(b) + 2)
  }

  /** What has to be kept of a buffer in which no image has ended. */
  function Kept(b: Bytes): Bytes {
    if Start(b) == -1 then LastTwo(b) else b[Start(b)..]
  }

  /** The frames of a stream, and the bytes that may still belong to a later one. */
  function Parse(b: Bytes): Parsed
    decreases |b|
  {
    if End(b) == -1 then Parsed([], Kept(b))
    else Prepend(b[Start(b)..End(b) + 2], Parse(b[End(b) + 2..]))
  }

  function Prepend(frame: Bytes, later: Parsed): Parsed {
    Parsed([frame] + later.frames, later.rest)
  }

  /** `p`, with these frames before it. */
  function PrependAll(frames: seq<Bytes>, p: Parsed): Parsed {
    Parsed(frames + p.frames, p.rest)
  }

  /** What has been parsed so far, once `y` has come in too. */
  function Continue(p: Parsed, y: Bytes): Parsed {
    PrependAll(p.frames, Parse(p.rest + y))
  }

  function Flatten<T>(parts: seq<seq<T>>): seq<T> {
    if parts == [] then [] else Flatten(parts[..|parts| - 1]) + parts[|parts| - 1]
  }

  lemma FlattenMore<T>(parts: seq<seq<T>>, x: seq<T>)
    ensures Flatten(parts + [x]) == Flatten(parts) + x
  {
    var more := parts + [x];
    assert more[..|more| - 1] == parts;
  }

  lemma {:induction false} FlattenConcat<T>(s: seq<seq<T>>, t: seq<seq<T>>)
    ensures Flatten(s + t) == Flatten(s) + Flatten(t)
  {
    if t == [] {
      assert s + t == s;
    } else {
      var init, last := t[..|t| - 1], t[|t| - 1];
      FlattenConcat(s, init);
      assert t == init + [last];
      FlattenAnother(s, init, last, Flatten(s), Flatten(init));
    }
  }

  lemma FlattenAnother<T>(s: seq<seq<T>>, t: seq<seq<T>>, x: seq<T>, fs: seq<T>, ft: seq<T>)
    requires fs == Flatten(s) && ft == Flatten(t) && Flatten(s + t) == fs + ft
    ensures Flatten(s + (t + [x])) == fs + Flatten(t + [x])
  {
    FlattenMore(s + t, x);
    FlattenMore(t, x);
    Regrouped(s, t, [x]);
    Regrouped(fs, ft, x);
  }

  lemma Regrouped<T>(a: seq<T>, b: seq<T>, c: seq<T>)
    ensures (a + b) + c == a + (b + c)
  {
  }

  /** `yielded[k]` are the frames that came out while chunk k was being read. */
  method Frames(chunks: seq<Bytes>) returns (yielded: seq<seq<Bytes>>)
    ensures |yielded| == |chunks|
    ensures forall k | 0 <= k <= |chunks| :: YieldedBy(chunks, yielded, k)
  {
    yielded := [];
    var buffer: Bytes := [];
    for c := 0 to |chunks|
      invariant |yielded| == c
      invariant forall k | 0 <= k <= c :: YieldedBy(chunks, yielded, k)
      invariant buffer == Parse(Flatten(chunks[..c])).rest
    {
      var out: seq<Bytes>;
      out, buffer := Drain(buffer + chunks[c]);
      forall k | 0 <= k <= c ensures YieldedBy(chunks, yielded + [out], k) {
        EarlierChunk(chunks, yielded, out, k);
      }
      OneMoreChunk(chunks, yielded, out, buffer, c);
      yielded := yielded + [out];
    }
  }

  lemma EarlierChunk(chunks: seq<Bytes>, yielded: seq<seq<Bytes>>, out: seq<Bytes>, k: nat)
    requires k <= |chunks| && k <= |yielded| && YieldedBy(chunks, yielded, k)
    ensures YieldedBy(chunks, yielded + [out], k)
  {
    assert (yielded + [out])[..k] == yielded[..k];
  }

  lemma OneMoreChunk(chunks: seq<Bytes>, yielded: seq<seq<Bytes>>, out: seq<Bytes>, buffer: Bytes, c: nat)
    requires c < |chunks| && c == |yielded| && YieldedBy(chunks, yielded, c)
    requires Parsed(out, buffer) == Parse(Parse(Flatten(chunks[..c])).rest + chunks[c])
    ensures YieldedBy(chunks, yielded + [out], c + 1)
    ensures buffer == Parse(Flatten(chunks[..c + 1])).rest
  {
    ParseConcat(Flatten(chunks[..c]), chunks[c]);
    assert chunks[..c + 1] == chunks[..c] + [chunks[c]];
    FlattenMore(chunks[..c], chunks[c]);
    assert (yielded + [out])[..c + 1] == yielded + [out] && yielded[..c] == yielded;
    FlattenMore(yielded, out);
  }

  ghost predicate YieldedBy(chunks: seq<Bytes>, yielded: seq<seq<Bytes>>, k: nat)
    requires k <= |chunks| && k <= |yielded|
  {
    Flatten(yielded[..k]) == Parse(Flatten(chunks[..k])).frames
  }

  lemma PrependOneMore(frames: seq<Bytes>, frame: Bytes, p: Parsed)
    ensures PrependAll(frames, Prepend(frame, p)) == PrependAll(frames + [frame], p)
  {
    assert frames + ([frame] + p.frames) == (frames + [frame]) + p.frames;
  }

  /** The scan loop: takes out every complete frame and trims the buffer. */
  method Drain(b: Bytes) returns (out: seq<Bytes>, buffer: Bytes)
    ensures Parsed(out, buffer) == Parse(b)
  {
    out, buffer := [], b;
    ghost var whole := Parse(b);
    while true
      invariant PrependAll(out, Parse(buffer)) == whole
      decreases |buffer|
    {
      var start := Find(buffer, SOI, 0);
      if start == -1 {
        NoImage(buffer);
        if |buffer| > 2 {
          buffer := buffer[|buffer| - 2..];
        }
        return;
      }
      var end := Find(buffer, EOI, start + 2);
      if end == -1 {
        NoImage(buffer);
        buffer := buffer[start..];
        return;
      }
      var frame := buffer[start..end + 2];
      ParseFrom(buffer, start, end + 2);
      PrependOneMore(out, frame, Parse(buffer[end + 2..]));
      buffer := buffer[end + 2..];
      out := out + [frame];
    }
  }

  lemma NoImage(b: Bytes)
    requires End(b) == -1
    ensures Parse(b) == Parsed([], Kept(b))
  {
  }

  lemma ParseFrom(b: Bytes, i: nat, j: nat)
    requires End(b) != -1 && i == Start(b) && j == End(b) + 2
    ensures Parse(b) == Prepend(b[i..j], Parse(b[j..]))
  {
  }

  // ---------- cutting the stream anywhere ----------

  function Less(r: int, k: nat): int {
    if r == -1 then -1 else r - k
  }

  lemma {:induction false} FindInSuffix(b: Bytes, k: nat, second: Byte, from: nat)
    requires k <= |b|
    ensures Find(b[k..], second, from) == Less(Find(b, second, k + from), k)
    decreases |b| - from
  {
    if k + from + 1 < |b| {
      FindInSuffix(b, k, second, from + 1);
    }
  }

  lemma {:induction false} FindSkips(b: Bytes, second: Byte, from: nat, k: nat)
    requires from <= k && forall i | from <= i < k :: !MarkAt(b, second, i)
    ensures Find(b, second, from) == Find(b, second, k)
    decreases k - from
  {
    if from < k {
      FindSkips(b, second, from + 1, k);
    }
  }

  lemma {:induction false} FindInPrefix(x: Bytes, y: Bytes, second: Byte, from: nat)
    requires Find(x, second, from) != -1
    ensures Find(x + y, second, from) == Find(x, second, from)
    decreases |x| - from
  {
    if !MarkAt(x, second, from) {
      FindInPrefix(x, y, second, from + 1);
    }
  }

  lemma ImageInSuffix(b: Bytes, k: nat)
    requires k <= |b| && forall i | 0 <= i < k :: !MarkAt(b, SOI, i)
    ensures Start(b) == -1 || k <= Start(b)
    ensures Start(b[k..]) == Less(Start(b), k) && End(b[k..]) == Less(End(b), k)
  {
    FindSkips(b, SOI, 0, k);
    FindInSuffix(b, k, SOI, 0);
    if Start(b) != -1 {
      FindInSuffix(b, k, EOI, Start(b) - k + 2);
    }
  }

  lemma ImageInPrefix(x: Bytes, y: Bytes)
    requires End(x) != -1
    ensures Start(x + y) == Start(x) && End(x + y) == End(x)
  {
    FindInPrefix(x, y, SOI, 0);
    FindInPrefix(x, y, EOI, Start(x) + 2);
  }

  /** Bytes before the first start marker do not matter, as long as two are left. */
  lemma SkipGap(b: Bytes, k: nat)
    requires k + 2 <= |b| && forall i | 0 <= i < k :: !MarkAt(b, SOI, i)
    ensures Parse(b) == Parse(b[k..])
  {
    ImageInSuffix(b, k);
    ParseShifted(b, k);
  }

  lemma ParseShifted(b: Bytes, k: nat)
    requires k + 2 <= |b| && (Start(b) == -1 || k <= Start(b))
    requires Start(b[k..]) == Less(Start(b), k) && End(b[k..]) == Less(End(b), k)
    ensures Parse(b) == Parse(b[k..])
  {
    if End(b) == -1 {
      KeptShifted(b, k);
      SameKept(b, b[k..]);
    } else {
      var i, j := Start(b), End(b) + 2;
      SliceOfSuffix(b, k, i, j);
      SameImage(b, i, j, b[k..], i - k, j - k);
    }
  }

  lemma SameKept(b: Bytes, c: Bytes)
    requires End(b) == End(c) == -1 && Kept(b) == Kept(c)
    ensures Parse(b) == Parse(c)
  {
  }

  lemma SameImage(b: Bytes, i: nat, j: nat, c: Bytes, m: nat, n: nat)
    requires End(b) != -1 && i == Start(b) && j == End(b) + 2
    requires End(c) != -1 && m == Start(c) && n == End(c) + 2
    requires b[i..j] == c[m..n] && b[j..] == c[n..]
    ensures Parse(b) == Parse(c)
  {
  }

  lemma KeptShifted(b: Bytes, k: nat)
    requires k + 2 <= |b| && (Start(b) == -1 || k <= Start(b))
    requires Start(b[k..]) == Less(Start(b), k)
    ensures Kept(b) == Kept(b[k..])
  {
    if Start(b) == -1 {
      SliceOfSuffix(b, k, k, |b| - 2);
    } else {
      SliceOfSuffix(b, k, k, Start(b));
    }
  }

  lemma SliceOfSuffix(b: Bytes, k: nat, i: nat, j: nat)
    requires k <= i <= j <= |b|
    ensures b[k..][i - k..j - k] == b[i..j] && b[k..][j - k..] == b[j..]
  {
  }

  /** What is cut off a buffer holds no start marker, even together with what comes next. */
  lemma TrimmedIsGap(x: Bytes, y: Bytes)
    requires End(x) == -1
    ensures var k := |x| - |Kept(x)|;
            && 0 <= k && (k > 0 ==> k + 2 <= |x|) && Kept(x) == x[k..]
            && forall i | 0 <= i < k :: !MarkAt(x + y, SOI, i)
  {
    var k := |x| - |Kept(x)|;
    FindIsFirst(x, SOI, 0);
    forall i | 0 <= i < k ensures !MarkAt(x + y, SOI, i) {
      assert !MarkAt(x, SOI, i);
    }
  }

  lemma ParseAfterTrim(x: Bytes, y: Bytes)
    requires End(x) == -1
    ensures Parse(x + y) == Parse(Kept(x) + y)
  {
    var k := |x| - |Kept(x)|;
    TrimmedIsGap(x, y);
    assert (x + y)[k..] == Kept(x) + y;
    if k > 0 {
      SkipGap(x + y, k);
    }
  }

  /** Parsing a stream in two pieces, carrying over only what was kept, is parsing it whole. */
  lemma {:induction false} ParseConcat(x: Bytes, y: Bytes)
    ensures Parse(x + y) == Continue(Parse(x), y)
    decreases |x|
  {
    if End(x) == -1 {
      ParseAfterTrim(x, y);
      NothingYet(Kept(x), y);
    } else {
      var i, j := Start(x), End(x) + 2;
      ImageInPrefix(x, y);
      SlicesOfPrefix(x, y, i, j);
      ParseConcat(x[j..], y);
      ParseFrom(x, i, j);
      ParseFrom(x + y, i, j);
      Prepended(x[i..j], Parse(x[j..]), y);
    }
  }

  lemma SlicesOfPrefix(x: Bytes, y: Bytes, i: nat, j: nat)
    requires i <= j <= |x|
    ensures (x + y)[i..j] == x[i..j] && (x + y)[j..] == x[j..] + y
  {
  }

  lemma NothingYet(rest: Bytes, y: Bytes)
    ensures Continue(Parsed([], rest), y) == Parse(rest + y)
  {
  }

  lemma Prepended(frame: Bytes, p: Parsed, y: Bytes)
    ensures Continue(Prepend(frame, p), y) == Prepend(frame, Continue(p, y))
  {
  }

  /** What is kept is at most two bytes, or an image that has begun and not ended. */
  lemma {:induction false} KeptShape(b: Bytes)
    ensures var rest := Parse(b).rest;
            |rest| <= 2 || (MarkAt(rest, SOI, 0) && forall i | 2 <= i :: !MarkAt(rest, EOI, i))
    decreases |b|
  {
    if End(b) != -1 {
      KeptShape(b[End(b) + 2..]);
    } else if Start(b) != -1 {
      FindIsFirst(b, SOI, 0);
      FindInSuffix(b, Start(b), EOI, 2);
      FindIsFirst(Kept(b), EOI, 2);
    }
  }

  // ---------- what the frames of a stream are ----------

  /** An image: it begins with a start marker, and its last two bytes are its first end marker after that. */
  predicate IsFrame(f: Bytes) {
    |f| >= 4 && MarkAt(f, SOI, 0) && MarkAt(f, EOI, |f| - 2) && forall i | 2 <= i < |f| - 2 :: !MarkAt(f, EOI, i)
  }

  predicate IsGap(g: Bytes) {
    forall i | 0 <= i < |g| :: !MarkAt(g, SOI, i)
  }

  /** No image begins and ends in `t`. */
  ghost predicate Unfinished(t: Bytes) {
    forall i, j | MarkAt(t, SOI, i) && i + 2 <= j :: !MarkAt(t, EOI, j)
  }

  function Weave(gaps: seq<Bytes>, frames: seq<Bytes>): Bytes
    requires |gaps| == |frames|
  {
    if frames == [] then [] else gaps[0] + frames[0] + Weave(gaps[1..], frames[1..])
  }

  /** The stream consists of the frames, with the gaps before them and the tail after the last. */
  ghost predicate Splits(b: Bytes, gaps: seq<Bytes>, frames: seq<Bytes>, tail: Bytes) {
    && |gaps| == |frames| && b == Weave(gaps, frames) + tail
    && (forall g | g in gaps :: IsGap(g)) && (forall f | f in frames :: IsFrame(f)) && Unfinished(tail)
  }

  lemma ParseFirst(g: Bytes, f: Bytes, r: Bytes)
    requires IsGap(g) && IsFrame(f)
    ensures Parse(g + f + r) == Prepend(f, Parse(r))
  {
    var b, n := g + f + r, |g|;
    forall i | 0 <= i < n ensures !MarkAt(b, SOI, i) {
      assert !MarkAt(g, SOI, i);
      assert b[n] == f[0];
    }
    FindSkips(b, SOI, 0, n);
    assert MarkAt(b, SOI, n);
    var last := |f| - 2;
    FindSkips(f, EOI, 2, last);
    FindInPrefix(f, r, EOI, 2);
    assert b[n..] == f + r;
    FindInSuffix(b, n, EOI, 2);
    assert Start(b) == n && End(b) == n + last;
    assert b[n..n + last + 2] == f;
    assert b[n + last + 2..] == r;
  }

  lemma {:induction false} ParseWeave(b: Bytes, gaps: seq<Bytes>, frames: seq<Bytes>, tail: Bytes)
    requires Splits(b, gaps, frames, tail)
    ensures Parse(b).frames == frames
    decreases |frames|
  {
    if frames != [] {
      var r := Weave(gaps[1..], frames[1..]) + tail;
      assert b == gaps[0] + frames[0] + r;
      ParseFirst(gaps[0], frames[0], r);
      ParseWeave(r, gaps[1..], frames[1..], tail);
    } else {
      assert b == tail;
      NothingEnded(b);
    }
  }

  lemma {:induction false} ParseSplits(b: Bytes) returns (gaps: seq<Bytes>, tail: Bytes)
    ensures Splits(b, gaps, Parse(b).frames, tail)
    decreases |b|
  {
    NothingEnded(b);
    if End(b) == -1 {
      gaps, tail := [], b;
    } else {
      var g, f, r := b[..Start(b)], b[Start(b)..End(b) + 2], b[End(b) + 2..];
      var laterGaps, laterTail := ParseSplits(r);
      gaps, tail := [g] + laterGaps, laterTail;
      FirstPieces(b);
      assert b == g + f + r;
      SplitsMore(g, f, r, laterGaps, Parse(r).frames, laterTail);
    }
  }

  lemma NothingEnded(b: Bytes)
    ensures Unfinished(b) <==> End(b) == -1
  {
    FindIsFirst(b, SOI, 0);
    if Start(b) != -1 {
      FindIsFirst(b, EOI, Start(b) + 2);
    }
  }

  lemma SplitsMore(g: Bytes, f: Bytes, r: Bytes, gaps: seq<Bytes>, frames: seq<Bytes>, tail: Bytes)
    requires IsGap(g) && IsFrame(f) && Splits(r, gaps, frames, tail)
    ensures Splits(g + f + r, [g] + gaps, [f] + frames, tail)
  {
    assert ([g] + gaps)[1..] == gaps && ([f] + frames)[1..] == frames;
    assert g + f + (Weave(gaps, frames) + tail) == g + f + Weave(gaps, frames) + tail;
  }

  lemma FirstPieces(b: Bytes)
    requires End(b) != -1
    ensures IsGap(b[..Start(b)]) && IsFrame(b[Start(b)..End(b) + 2])
  {
    var g, f := b[..Start(b)], b[Start(b)..End(b) + 2];
    FindIsFirst(b, SOI, 0);
    FindIsFirst(b, EOI, Start(b) + 2);
    forall i | 0 <= i < |g| ensures !MarkAt(g, SOI, i) {
      assert !MarkAt(b, SOI, i);
    }
    forall i | 2 <= i < |f| - 2 ensures !MarkAt(f, EOI, i) {
      assert !MarkAt(b, EOI, Start(b) + i);
    }
  }

  /** The frames of a stream are those of any way to split it, and there is a way. */
  lemma FramesAreThePieces(b: Bytes, frames: seq<Bytes>)
    ensures Parse(b).frames == frames <==> exists gaps, tail :: Splits(b, gaps, frames, tail)
  {
    if Parse(b).frames == frames {
      var gaps, tail := ParseSplits(b);
    }
    forall gaps, tail | Splits(b, gaps, frames, tail) ensures Parse(b).frames == frames {
      ParseWeave(b, gaps, frames, tail);
    }
  }

  // ---------- the same in bytes ----------

  /** A JPEG file without another inside: 0xFF 0xD8 first, 0xFF 0xD9 last and not before. */
  predicate IsImage(f: Bytes) {
    && |f| >= 4 && f[0] == 0xFF && f[1] == 0xD8 && f[|f| - 2] == 0xFF && f[|f| - 1] == 0xD9
    && forall i, j | 2 <= i && j == i + 1 < |f| - 1 :: !(f[i] == 0xFF && f[j] == 0xD9)
  }

  /** Bytes without 0xFF 0xD8. */
  predicate IsFiller(g: Bytes) {
    forall i, j | 0 <= i && j == i + 1 < |g| :: !(g[i] == 0xFF && g[j] == 0xD8)
  }

  /** No 0xFF 0xD9 after a 0xFF 0xD8. */
  ghost predicate EndsNothing(t: Bytes) {
    forall i, j, k, l | 0 <= i && j == i + 1 && i + 2 <= k && l == k + 1 < |t| ::
      !(t[i] == 0xFF && t[j] == 0xD8 && t[k] == 0xFF && t[l] == 0xD9)
  }

  /** These images, each after its filler, and then a tail. */
  ghost predicate IsStream(b: Bytes, fillers: seq<Bytes>, images: seq<Bytes>, tail: Bytes) {
    && |fillers| == |images| && b == Weave(fillers, images) + tail && EndsNothing(tail)
    && (forall g | g in fillers :: IsFiller(g))
    && (forall f | f in images :: IsImage(f))
  }

  lemma ImagesAreFrames(f: Bytes)
    ensures IsImage(f) <==> IsFrame(f)
  {
    if IsImage(f) {
      forall i | 2 <= i < |f| - 2 ensures !MarkAt(f, EOI, i) {
        assert !(f[i] == 0xFF && f[i + 1] == 0xD9);
      }
    }
    if IsFrame(f) {
      forall i, j | 2 <= i && j == i + 1 < |f| - 1 ensures !(f[i] == 0xFF && f[j] == 0xD9) {
        assert !MarkAt(f, EOI, i);
      }
    }
  }

  lemma FillersAreGaps(g: Bytes)
    ensures IsFiller(g) <==> IsGap(g)
  {
    if IsFiller(g) {
      forall i | 0 <= i < |g| ensures !MarkAt(g, SOI, i) {
        assert i + 1 < |g| ==> !(g[i] == 0xFF && g[i + 1] == 0xD8);
      }
    }
    if IsGap(g) {
      forall i, j | 0 <= i && j == i + 1 < |g| ensures !(g[i] == 0xFF && g[j] == 0xD8) {
        assert !MarkAt(g, SOI, i);
      }
    }
  }

  lemma TailsAreUnfinished(t: Bytes)
    ensures EndsNothing(t) <==> Unfinished(t)
  {
    if EndsNothing(t) {
      forall i, k | MarkAt(t, SOI, i) && i + 2 <= k ensures !MarkAt(t, EOI, k) {
        assert k + 1 < |t| ==> !(t[i] == 0xFF && t[i + 1] == 0xD8 && t[k] == 0xFF && t[k + 1] == 0xD9);
      }
    }
    if Unfinished(t) {
      forall i, j, k, l | 0 <= i && j == i + 1 && i + 2 <= k && l == k + 1 < |t|
        ensures !(t[i] == 0xFF && t[j] == 0xD8 && t[k] == 0xFF && t[l] == 0xD9)
      {
        assert MarkAt(t, SOI, i) ==> !MarkAt(t, EOI, k);
      }
    }
  }

  lemma StreamsSplit(b: Bytes, fillers: seq<Bytes>, images: seq<Bytes>, tail: Bytes)
    ensures IsStream(b, fillers, images, tail) <==> Splits(b, fillers, images, tail)
  {
    TailsAreUnfinished(tail);
    forall g ensures IsFiller(g) <==> IsGap(g) {
      FillersAreGaps(g);
    }
    forall f ensures IsImage(f) <==> IsFrame(f) {
      ImagesAreFrames(f);
    }
  }

  /** In terms of the bytes: the frames are the images of the stream, and every stream has such a form. */
  lemma FramesAreTheImages(b: Bytes, images: seq<Bytes>)
    ensures Parse(b).frames == images <==> exists fillers, tail :: IsStream(b, fillers, images, tail)
  {
    FramesAreThePieces(b, images);
    forall fillers, tail ensures IsStream(b, fillers, images, tail) <==> Splits(b, fillers, images, tail) {
      StreamsSplit(b, fillers, images, tail);
    }
  }

  /** Through any chunks, what comes out is the images of the stream, in order. */
  method ImagesOfChunks(chunks: seq<Bytes>) returns (yielded: seq<seq<Bytes>>)
    ensures |yielded| == |chunks|
    ensures forall fillers, images, tail | IsStream(Flatten(chunks), fillers, images, tail) ::
              Flatten(yielded) == images
  {
    yielded := Frames(chunks);
    assert YieldedBy(chunks, yielded, |chunks|);
    assert yielded[..|chunks|] == yielded && chunks[..|chunks|] == chunks;
    forall fillers, images, tail | IsStream(Flatten(chunks), fillers, images, tail) ensures Flatten(yielded) == images {
      FramesAreTheImages(Flatten(chunks), images);
    }
  }

  /** What is kept of bytes in which no image has ended: from the first 0xFF 0xD8 on, or the last two. */
  lemma KeptBytes(b: Bytes)
    requires EndsNothing(b)
    ensures IsFiller(b) ==> Parse(b).rest == if |b| > 2 then b[|b| - 2..] else b
    ensures forall i, j | 0 <= i && j == i + 1 < |b| && b[i] == 0xFF && b[j] == 0xD8 && IsFiller(b[..j]) ::
              Parse(b).rest == b[i..]
  {
    TailsAreUnfinished(b);
    NothingEnded(b);
    FindIsFirst(b, SOI, 0);
    FillersAreGaps(b);
    forall i, j | 0 <= i && j == i + 1 < |b| && b[i] == 0xFF && b[j] == 0xD8 && IsFiller(b[..j])
      ensures Parse(b).rest == b[i..]
    {
      FirstMarker(b, i);
    }
  }

  lemma FirstMarker(b: Bytes, i: nat)
    requires i + 1 < |b| && MarkAt(b, SOI, i) && IsFiller(b[..i + 1])
    ensures Start(b) == i
  {
    FillersAreGaps(b[..i + 1]);
    FindIsFirst(b, SOI, 0);
    forall k | 0 <= k < i ensures !MarkAt(b, SOI, k) {
      assert !MarkAt(b[..i + 1], SOI, k);
    }
  }

  /** The smallest case. */
  lemma OneImage()
    ensures Parse([0xFF, 0xD8, 0x00, 0xFF, 0xD9]).frames == [[0xFF, 0xD8, 0x00, 0xFF, 0xD9]]
  {
    var b: Bytes := [0xFF, 0xD8, 0x00, 0xFF, 0xD9];
    assert Weave([], []) == [];
    assert Weave([[]], [b]) + [] == b;
    assert IsStream(b, [[]], [b], []);
    FramesAreTheImages(b, [b]);
  }
}
