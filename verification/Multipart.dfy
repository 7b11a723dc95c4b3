/**
  The two multipart writers, and their round trip through the splitter.

  Both write a frame as one body part of a multipart stream with boundary `frame` (RFC 2046, section
  5.1.1), with its content type and its length. The camera's writer polls for the current frame and
  leaves out repetitions; the annotated stream's writer takes frames from a subscriber's queue.
*/
module Multipart {
  import opened Common
  import opened Splitter

  /** The bytes of a text in seven-bit code. */
  function Ascii(s: string): (b: Bytes)
    ensures |b| == |s| && forall i | 0 <= i < |s| :: b[i] == s[i] as int % 128
  {
    seq(|s|, i requires 0 <= i < |s| => s[i] as int % 128)
  }

  function Digit(n: nat): (c: char)
    requires n < 10
    ensures '0' <= c <= '9'
  {
    (n + '0' as int) as char
  }

  function Decimal(n: nat): (s: string)
    ensures s != [] && forall i | 0 <= i < |s| :: '0' <= s[i] <= '9'
  {
    if n < 10 then [Digit(n)] else Decimal(n / 10) + [Digit(n % 10)]
  }

  /** The number that a string of digits denotes. */
  function Denoted(s: string): int {
    if s == [] then 0 else 10 * Denoted(s[..|s| - 1]) + (s[|s| - 1] as int - '0' as int)
  }

  /** The length line says the length. */
  lemma {:induction false} DecimalDenotes(n: nat)
    ensures Denoted(Decimal(n)) == n
  {
    if n < 10 {
      assert Denoted([]) == 0;
      assert Decimal(n)[..0] == [];
    } else {
      DecimalDenotes(n / 10);
      assert Decimal(n)[..|Decimal(n)| - 1] == Decimal(n / 10);
    }
  }

  const OPENING := "--frame" + "\r\n" + "Content-Type: image/jpeg" + "\r\n" + "Content-Length: "
  const BLANK_LINE := "\r\n\r\n"
  const LINE_END := "\r\n"

  function Header(length: nat): (h: Bytes)
    ensures forall i | 0 <= i < |h| :: h[i] < 128
  {
    Ascii(OPENING) + Ascii(Decimal(length)) + Ascii(BLANK_LINE)
  }

  function Trailer(): (t: Bytes)
    ensures forall i | 0 <= i < |t| :: t[i] < 128
  {
    Ascii(LINE_END)
  }

  function Part(frame: Bytes): Bytes {
    Header(|frame|) + frame + Trailer()
  }

  function Parts(frames: seq<Bytes>): seq<Bytes> {
    seq(|frames|, i requires 0 <= i < |frames| => Part(frames[i]))
  }

  // ---------- the writers ----------

  function Present(polls: seq<Option<Bytes>>): seq<Bytes> {
    if polls == [] then []
    else
      var last := polls[|polls| - 1];
      var before := Present(polls[..|polls| - 1]);
      if last == None then before else before + [last.value]
  }

  /** The frames of the polls that gave one, in order; `at` are the places of those polls. */
  lemma {:induction false} PresentIs(polls: seq<Option<Bytes>>) returns (at: seq<nat>)
    ensures |at| == |Present(polls)|
    ensures forall i | 0 <= i < |at| :: at[i] < |polls| && polls[at[i]] == Some(Present(polls)[i])
    ensures forall i, j | 0 <= i < j < |at| :: at[i] < at[j]
    ensures forall k: nat | k < |polls| && polls[k] != None :: k in at
  {
    if polls == [] {
      at := [];
    } else {
      var n := |polls| - 1;
      at := PresentIs(polls[..n]);
      assert forall k | 0 <= k < n :: polls[..n][k] == polls[k];
      if polls[n] != None {
        at := at + [n];
      }
    }
  }

  /** Without each element that repeats the one just before it. */
  function Collapse<T(==)>(s: seq<T>): seq<T> {
    if |s| < 2 then s
    else if s[|s| - 1] == s[|s| - 2] then Collapse(s[..|s| - 1])
    else Collapse(s[..|s| - 1]) + [s[|s| - 1]]
  }

  /** Each poll of a running camera gives its current frame, or none. */
  method WriteCameraStream(polls: seq<Option<Bytes>>) returns (out: seq<Bytes>)
    ensures out == Parts(Collapse(Present(polls)))
  {
    out := [];
    var lastSent: Option<Bytes> := None;
    for i := 0 to |polls|
      invariant out == Parts(Collapse(Present(polls[..i])))
      invariant lastSent == LastOf(Present(polls[..i]))
    {
      var frame := polls[i];
      assert polls[..i + 1][..i] == polls[..i];
      if frame != None {
        CollapseMore(Present(polls[..i]), frame.value);
        PartsMore(Collapse(Present(polls[..i])), frame.value);
      }
      if frame != None && frame != lastSent {
        lastSent := frame;
        out := out + [Part(frame.value)];
      }
    }
    assert polls[..|polls|] == polls;
  }

  lemma CollapseMore<T>(s: seq<T>, x: T)
    ensures Collapse(s + [x]) == if s != [] && s[|s| - 1] == x then Collapse(s) else Collapse(s) + [x]
  {
    assert (s + [x])[..|s|] == s;
  }

  lemma PartsMore(s: seq<Bytes>, x: Bytes)
    ensures Parts(s + [x]) == Parts(s) + [Part(x)]
  {
  }

  function LastOf(s: seq<Bytes>): Option<Bytes> {
    if s == [] then None else Some(s[|s| - 1])
  }

  /** The frames taken from the queue, in turn. */
  method WriteAnnotatedStream(delivered: seq<Bytes>) returns (out: seq<Bytes>)
    ensures out == Parts(delivered)
  {
    out := [];
    for i := 0 to |delivered|
      invariant out == Parts(delivered[..i])
    {
      out := out + [Part(delivered[i])];
    }
    assert delivered[..|delivered|] == delivered;
  }

  // ---------- what collapsing means ----------

  ghost predicate NoRepetition<T>(s: seq<T>) {
    forall i, j | 0 <= i && i + 1 == j < |s| :: s[i] != s[j]
  }

  /** `s` says the elements of `c` in order, each one or more times; s[i] is an occurrence of c[at[i]]. */
  ghost predicate Stutters<T>(c: seq<T>, s: seq<T>, at: seq<nat>) {
    && |at| == |s| && (s == [] ==> c == [])
    && (s != [] ==> at[0] == 0 && at[|s| - 1] == |c| - 1)
    && (forall i | 0 <= i < |s| :: at[i] < |c| && c[at[i]] == s[i])
    && (forall i, j | 0 <= i && i + 1 == j < |s| :: at[i] <= at[j] <= at[i] + 1)
  }

  /** Collapsing leaves no repetition and loses nothing but repetitions. */
  lemma {:induction false} CollapseStutters<T>(s: seq<T>) returns (at: seq<nat>)
    ensures NoRepetition(Collapse(s)) && Stutters(Collapse(s), s, at)
  {
    if |s| < 2 {
      at := if s == [] then [] else [0];
    } else {
      var front, x := s[..|s| - 1], s[|s| - 1];
      assert s == front + [x];
      at := CollapseStutters(front);
      at := CollapseMoreStutters(front, at, x);
    }
  }

  lemma CollapseMoreStutters<T>(s: seq<T>, before: seq<nat>, x: T) returns (at: seq<nat>)
    requires s != [] && NoRepetition(Collapse(s)) && Stutters(Collapse(s), s, before)
    ensures NoRepetition(Collapse(s + [x])) && Stutters(Collapse(s + [x]), s + [x], at)
  {
    CollapseMore(s, x);
    StutterMore(Collapse(s), s, before, x);
    at := before + [|Collapse(s + [x])| - 1];
  }

  lemma StutterMore<T>(c: seq<T>, s: seq<T>, at: seq<nat>, x: T)
    requires s != [] && NoRepetition(c) && Stutters(c, s, at)
    ensures c != [] && c[|c| - 1] == s[|s| - 1]
    ensures x == s[|s| - 1] ==> Stutters(c, s + [x], at + [|c| - 1])
    ensures x != s[|s| - 1] ==> NoRepetition(c + [x]) && Stutters(c + [x], s + [x], at + [|c|])
  {
  }

  lemma {:induction false} Rises(at: seq<nat>, i: nat, j: nat)
    requires i <= j < |at| && forall i, j | 0 <= i && i + 1 == j < |at| :: at[i] <= at[j]
    ensures at[i] <= at[j]
  {
    if i < j {
      Rises(at, i, j - 1);
      assert at[j - 1] <= at[j];
    }
  }

  /** So it is the only way to say the same without repetition. */
  lemma {:induction false} CollapseIsUnique<T>(c: seq<T>, s: seq<T>, at: seq<nat>)
    requires NoRepetition(c) && Stutters(c, s, at)
    ensures c == Collapse(s)
  {
    if |s| == 1 {
      assert c == [s[0]];
    } else if |s| >= 2 {
      var k, n := |s| - 1, |c| - 1;
      assert at[k - 1] <= at[k] <= at[k - 1] + 1;
      if at[k - 1] == at[k] {
        CollapseIsUnique(c, s[..k], at[..k]);
      } else {
        StutterLess(c, s, at);
        CollapseIsUnique(c[..n], s[..k], at[..k]);
      }
    }
  }

  lemma StutterLess<T>(c: seq<T>, s: seq<T>, at: seq<nat>)
    requires |s| >= 2 && NoRepetition(c) && Stutters(c, s, at) && at[|s| - 2] != at[|s| - 1]
    ensures |c| >= 2 && s[|s| - 1] != s[|s| - 2] && c == c[..|c| - 1] + [s[|s| - 1]]
    ensures NoRepetition(c[..|c| - 1]) && Stutters(c[..|c| - 1], s[..|s| - 1], at[..|s| - 1])
  {
    var k, n := |s| - 1, |c| - 1;
    assert at[k - 1] <= at[k] <= at[k - 1] + 1;
    assert c[n - 1] != c[n];
    forall i | 0 <= i < k ensures at[i] < n {
      Rises(at, i, k - 1);
    }
  }

  // ---------- round trip ----------

  lemma {:induction false} FlattenFront<T>(x: seq<T>, y: seq<seq<T>>)
    ensures Flatten([x] + y) == x + Flatten(y)
  {
    FlattenConcat([x], y);
    assert [x][..0] == [];
    assert Flatten([x]) == x;
  }

  lemma AsciiIsGap(g: Bytes)
    requires forall i | 0 <= i < |g| :: g[i] < 128
    ensures IsGap(g)
  {
  }

  /** Whatever text comes before, the splitter gets out exactly the images that were put in. */
  lemma {:induction false} PartsParse(text: Bytes, frames: seq<Bytes>)
    requires forall i | 0 <= i < |text| :: text[i] < 128
    requires forall f | f in frames :: IsFrame(f)
    ensures Parse(text + Flatten(Parts(frames))).frames == frames
    decreases |frames|
  {
    if frames == [] {
      TextAlone(text);
      assert text + Flatten(Parts(frames)) == text;
    } else {
      var f, later := frames[0], frames[1..];
      PartsParse(Trailer(), later);
      PartFirst(text, f, later);
      assert frames == [f] + later;
    }
  }

  lemma TextAlone(text: Bytes)
    requires forall i | 0 <= i < |text| :: text[i] < 128
    ensures Parse(text).frames == []
  {
    assert Splits(text, [], [], text);
    ParseWeave(text, [], [], text);
  }

  lemma PartFirst(text: Bytes, f: Bytes, later: seq<Bytes>)
    requires forall i | 0 <= i < |text| :: text[i] < 128
    requires IsFrame(f)
    ensures Parse(text + Flatten(Parts([f] + later))) == Prepend(f, Parse(Trailer() + Flatten(Parts(later))))
  {
    var gap, r := text + Header(|f|), Trailer() + Flatten(Parts(later));
    PartsFront(f, later);
    Regroup(text, Header(|f|), f, Trailer(), Flatten(Parts(later)));
    AsciiIsGap(gap);
    ParseFirst(gap, f, r);
  }

  lemma Regroup(text: Bytes, h: Bytes, f: Bytes, t: Bytes, rest: Bytes)
    ensures text + ((h + f + t) + rest) == (text + h) + f + (t + rest)
  {
  }

  lemma PartsOfFront(f: Bytes, later: seq<Bytes>)
    ensures Parts([f] + later) == [Part(f)] + Parts(later)
  {
  }

  lemma PartsFront(f: Bytes, later: seq<Bytes>)
    ensures Flatten(Parts([f] + later)) == Part(f) + Flatten(Parts(later))
  {
    PartsOfFront(f, later);
    FlattenFront(Part(f), Parts(later));
  }

  lemma {:induction false} ParsedAreFrames(b: Bytes)
    ensures forall f | f in Parse(b).frames :: IsFrame(f)
  {
    var gaps, tail := ParseSplits(b);
  }

  /** Written and split again, a list of frames comes back exactly when each is one whole image. */
  lemma RoundTripIff(frames: seq<Bytes>)
    ensures Parse(Flatten(Parts(frames))).frames == frames <==> forall f | f in frames :: IsImage(f)
  {
    ParsedAreFrames(Flatten(Parts(frames)));
    forall f ensures IsImage(f) <==> IsFrame(f) {
      ImagesAreFrames(f);
    }
    if forall f | f in frames :: IsFrame(f) {
      PartsParse([], frames);
      assert [] + Flatten(Parts(frames)) == Flatten(Parts(frames));
    }
  }

  /** A frame that holds a whole image before its end, as with an embedded thumbnail, comes back cut short. */
  lemma EmbeddedImageCutsShort(f: Bytes, e: nat)
    requires MarkAt(f, SOI, 0) && 2 <= e < |f| - 2 && MarkAt(f, EOI, e)
    requires forall i | 2 <= i < e :: !MarkAt(f, EOI, i)
    ensures var back := Parse(Flatten(Parts([f]))).frames; back != [] && back[0] == f[..e + 2] != f
  {
    var image, after := f[..e + 2], f[e + 2..];
    assert forall i | 0 <= i < e + 1 :: MarkAt(image, EOI, i) == MarkAt(f, EOI, i);
    assert IsFrame(image);
    PartsFront(f, []);
    assert Parts([]) == [] && [f] + [] == [f];
    assert Header(|f|) + f + Trailer() + [] == Header(|f|) + image + (after + Trailer());
    AsciiIsGap(Header(|f|));
    ParseFirst(Header(|f|), image, after + Trailer());
  }

  /** From the camera to the detector: whatever the chunks, the distinct frames polled arrive in order. */
  method CameraToDetector(polls: seq<Option<Bytes>>, chunks: seq<Bytes>) returns (received: seq<seq<Bytes>>)
    requires Flatten(chunks) == Flatten(Parts(Collapse(Present(polls))))
    requires forall f | f in Present(polls) :: IsImage(f)
    ensures Flatten(received) == Collapse(Present(polls))
  {
    received := Frames(chunks);
    assert YieldedBy(chunks, received, |chunks|);
    assert received[..|chunks|] == received && chunks[..|chunks|] == chunks;
    CollapseKeeps(Present(polls));
    RoundTripIff(Collapse(Present(polls)));
  }

  lemma {:induction false} CollapseKeeps<T>(s: seq<T>)
    ensures forall x | x in Collapse(s) :: x in s
  {
    if |s| >= 2 {
      CollapseKeeps(s[..|s| - 1]);
    }
  }

  // ---------- the stream determines the frames ----------

  lemma DecimalInjective(m: nat, n: nat)
    requires Decimal(m) == Decimal(n)
    ensures m == n
  {
    DecimalDenotes(m);
    DecimalDenotes(n);
  }

  lemma AsciiDigitsInjective(s: string, t: string)
    requires Ascii(s) == Ascii(t)
    requires forall i | 0 <= i < |s| :: '0' <= s[i] <= '9'
    requires forall i | 0 <= i < |t| :: '0' <= t[i] <= '9'
    ensures s == t
  {
    assert |s| == |Ascii(s)| == |Ascii(t)| == |t|;
    forall i | 0 <= i < |s| ensures s[i] == t[i] {
      assert Ascii(s)[i] == Ascii(t)[i];
    }
  }

  /** A stretch without `x` before an `x` can be read off the front in one way only. */
  lemma UpToSeparator(d: Bytes, u: Bytes, e: Bytes, v: Bytes, x: Byte)
    requires d + [x] + u == e + [x] + v && x !in d && x !in e
    ensures d == e && u == v
  {
    var s := d + [x] + u;
    SeparatorOutside(d, u, e, v, x);
    SeparatorOutside(e, v, d, u, x);
    assert d == s[..|d|] && e == s[..|e|];
    assert u == s[|d| + 1..] && v == s[|e| + 1..];
  }

  lemma SeparatorOutside(d: Bytes, u: Bytes, e: Bytes, v: Bytes, x: Byte)
    requires d + [x] + u == e + [x] + v && x !in e
    ensures |e| <= |d|
  {
    var s := d + [x] + u;
    assert s[|d|] == x;
    assert forall i | 0 <= i < |e| :: s[i] == e[i];
  }

  /** A part, and what follows it, cut at the end of its length. */
  lemma PartAtLength(f: Bytes, x: Bytes)
    ensures Part(f) + x == Ascii(OPENING) + (Ascii(Decimal(|f|)) + [13] + AfterLength(f, x))
    ensures 13 !in Ascii(Decimal(|f|))
  {
    BlankLineBegins();
    DigitsOnly(Decimal(|f|));
    CutAtLength(Ascii(OPENING), Ascii(Decimal(|f|)), Ascii(BLANK_LINE), f, Trailer(), x);
  }

  lemma BlankLineBegins()
    ensures Ascii(BLANK_LINE) != [] && Ascii(BLANK_LINE)[0] == 13
  {
    assert BLANK_LINE[0] == '\r';
  }

  lemma DigitsOnly(s: string)
    requires forall i | 0 <= i < |s| :: '0' <= s[i] <= '9'
    ensures 13 !in Ascii(s)
  {
    forall i | 0 <= i < |s| ensures Ascii(s)[i] != 13 {
      assert s[i] as int % 128 == s[i] as int;
    }
  }

  function AfterLength(f: Bytes, x: Bytes): Bytes {
    Ascii(BLANK_LINE)[1..] + f + (Trailer() + x)
  }

  lemma CutAtLength(o: Bytes, d: Bytes, b: Bytes, f: Bytes, t: Bytes, x: Bytes)
    requires b != []
    ensures (o + d + b) + f + t + x == o + (d + [b[0]] + (b[1..] + f + (t + x)))
  {
  }

  lemma PartPrefixFree(f: Bytes, x: Bytes, g: Bytes, y: Bytes)
    requires Part(f) + x == Part(g) + y
    ensures f == g && x == y
  {
    PartAtLength(f, x);
    PartAtLength(g, y);
    var d, e := Ascii(Decimal(|f|)), Ascii(Decimal(|g|));
    var u, v := AfterLength(f, x), AfterLength(g, y);
    SameAfter(Ascii(OPENING), d + [13] + u, e + [13] + v);
    UpToSeparator(d, u, e, v, 13);
    AsciiDigitsInjective(Decimal(|f|), Decimal(|g|));
    DecimalInjective(|f|, |g|);
    SameBody(Ascii(BLANK_LINE)[1..], f, Trailer(), x, g, y);
  }

  lemma SameAfter(o: Bytes, x: Bytes, y: Bytes)
    requires o + x == o + y
    ensures x == y
  {
    assert x == (o + x)[|o|..] && y == (o + y)[|o|..];
  }

  lemma SameBody(c: Bytes, f: Bytes, t: Bytes, x: Bytes, g: Bytes, y: Bytes)
    requires c + f + (t + x) == c + g + (t + y) && |f| == |g|
    ensures f == g && x == y
  {
    var s := c + f + (t + x);
    assert f == s[|c|..|c| + |f|] && g == (c + g + (t + y))[|c|..|c| + |g|];
    SameAfter(c + f, t + x, t + y);
    SameAfter(t, x, y);
  }

  /** A multipart stream has only one list of frames behind it, images or not. */
  lemma {:induction false} PartsInjective(fs: seq<Bytes>, gs: seq<Bytes>)
    requires Flatten(Parts(fs)) == Flatten(Parts(gs))
    ensures fs == gs
    decreases |fs|
  {
    FirstPart(fs);
    FirstPart(gs);
    if fs != [] && gs != [] {
      PartPrefixFree(fs[0], Flatten(Parts(fs[1..])), gs[0], Flatten(Parts(gs[1..])));
      PartsInjective(fs[1..], gs[1..]);
    }
  }

  lemma FirstPart(fs: seq<Bytes>)
    ensures if fs == [] then Flatten(Parts(fs)) == []
            else Flatten(Parts(fs)) == Part(fs[0]) + Flatten(Parts(fs[1..])) && Flatten(Parts(fs)) != []
  {
    if fs != [] {
      assert fs == [fs[0]] + fs[1..];
      PartsFront(fs[0], fs[1..]);
      assert Part(fs[0]) != [];
    }
  }
}
