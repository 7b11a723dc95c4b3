/**
  A reader of multipart streams that goes by the headers (RFC 2046, section 5.1): it expects the boundary, reads
  header lines up to an empty one, and takes as many bytes as the content length says. It gets back every
  list of frames that was written, whatever bytes they hold.
*/
module MultipartReader {
  import opened Common
  import opened Splitter
  import opened Multipart

  // ---------- lines ----------

  datatype Line = Line(text: Bytes, rest: Bytes)

  /** Up to the first carriage return and line feed. */
  function ReadLine(b: Bytes): (r: Option<Line>)
    ensures r.Some? ==> |r.value.rest| + 2 <= |b|
  {
    if |b| < 2 then None
    else if b[0] == 13 && b[1] == 10 then Some(Line([], b[2..]))
    else match ReadLine(b[1..])
      case None => None
      case Some(line) => Some(Line([b[0]] + line.text, line.rest))
  }

  lemma {:induction false} ReadLineIs(text: Bytes, rest: Bytes)
    requires 13 !in text
    ensures ReadLine(text + [13, 10] + rest) == Some(Line(text, rest))
  {
    var b := text + [13, 10] + rest;
    if text == [] {
      assert b == [13, 10] + rest;
      assert b[2..] == rest;
    } else {
      ReadLineIs(text[1..], rest);
      assert b[1..] == text[1..] + [13, 10] + rest;
      assert [text[0]] + text[1..] == text;
    }
  }

  // ---------- header fields ----------

  const LENGTH_FIELD := "Content-Length: "

  predicate IsDigits(d: Bytes) {
    d != [] && forall i | 0 <= i < |d| :: 48 <= d[i] <= 57
  }

  /** What a row of decimal digits stands for. */
  function Value(d: Bytes): int {
    if d == [] then 0 else 10 * Value(d[..|d| - 1]) + (d[|d| - 1] as int - 48)
  }

  lemma {:induction false} ValuePositive(d: Bytes)
    requires forall i | 0 <= i < |d| :: 48 <= d[i] <= 57
    ensures Value(d) >= 0
  {
    if d != [] {
      ValuePositive(d[..|d| - 1]);
    }
  }

  /** The number after a field's name. */
  function FieldValue(field: Bytes, text: Bytes): Option<nat> {
    var n := |field|;
    if |text| > n && text[..n] == field && IsDigits(text[n..]) then
      ValuePositive(text[n..]);
      Some(Value(text[n..]))
    else None
  }

  function LengthOf(text: Bytes): Option<nat> {
    FieldValue(Ascii(LENGTH_FIELD), text)
  }

  datatype Head = Head(length: nat, rest: Bytes)

  /** The lines up to an empty one; the last length they give counts. */
  function ReadHead(b: Bytes, length: Option<nat>): (r: Option<Head>)
    ensures r.Some? ==> |r.value.rest| < |b|
    decreases |b|
  {
    match ReadLine(b)
    case None => None
    case Some(line) =>
      if line.text == [] then (if length == None then None else Some(Head(length.value, line.rest)))
      else ReadHead(line.rest, if LengthOf(line.text) == None then length else LengthOf(line.text))
  }

  // ---------- parts ----------

  datatype Body = Body(content: Bytes, rest: Bytes)

  /** The boundary on a line, the header, as many bytes as it says, and the end of the line. */
  function ReadPart(b: Bytes): (r: Option<Body>)
    ensures r.Some? ==> |r.value.rest| < |b|
  {
    match ReadLine(b)
    case None => None
    case Some(line) =>
      if line.text != Ascii("--frame") then None
      else match ReadHead(line.rest, None)
        case None => None
        case Some(head) =>
          var n := head.length;
          if n + 2 <= |head.rest| && head.rest[n] == 13 && head.rest[n + 1] == 10 then
            Some(Body(head.rest[..n], head.rest[n + 2..]))
          else None
  }

  function ReadAll(b: Bytes): seq<Bytes>
    decreases |b|
  {
    match ReadPart(b)
    case None => []
    case Some(body) => [body.content] + ReadAll(body.rest)
  }

  // ---------- it reads what is written ----------

  lemma {:induction false} ValueOfDecimal(s: string)
    requires forall i | 0 <= i < |s| :: '0' <= s[i] <= '9'
    ensures Value(Ascii(s)) == Denoted(s)
  {
    if s != [] {
      var k := |s| - 1;
      ValueOfDecimal(s[..k]);
      assert Ascii(s)[..k] == Ascii(s[..k]);
      assert s[k] as int % 128 == s[k] as int;
    }
  }

  lemma AsciiConcat(s: string, t: string)
    ensures Ascii(s + t) == Ascii(s) + Ascii(t)
  {
  }

  lemma NoReturns(s: string)
    requires forall i | 0 <= i < |s| :: 32 <= s[i] as int < 128
    ensures 13 !in Ascii(s)
  {
    forall i | 0 <= i < |s| ensures Ascii(s)[i] != 13 {
      assert s[i] as int % 128 == s[i] as int;
    }
  }

  lemma FieldValueIs(field: Bytes, digits: Bytes)
    requires IsDigits(digits)
    ensures Value(digits) >= 0 && FieldValue(field, field + digits) == Some(Value(digits))
  {
    var text := field + digits;
    assert text[..|field|] == field && text[|field|..] == digits;
    ValuePositive(digits);
  }

  lemma DecimalDigits(n: nat)
    ensures IsDigits(Ascii(Decimal(n))) && Value(Ascii(Decimal(n))) == n
  {
    var s := Decimal(n);
    forall i | 0 <= i < |s| ensures 48 <= Ascii(s)[i] <= 57 {
      assert s[i] as int % 128 == s[i] as int;
    }
    ValueOfDecimal(s);
    DecimalDenotes(n);
  }

  lemma NotIn(x: Byte, a: Bytes, b: Bytes)
    requires x !in a && x !in b
    ensures x !in a + b
  {
  }

  lemma LengthLine(n: nat)
    ensures var text := Ascii(LENGTH_FIELD) + Ascii(Decimal(n));
            13 !in text && text != [] && LengthOf(text) == Some(n)
  {
    NoReturns(LENGTH_FIELD);
    DigitsOnly(Decimal(n));
    DecimalDigits(n);
    NotIn(13, Ascii(LENGTH_FIELD), Ascii(Decimal(n)));
    FieldValueIs(Ascii(LENGTH_FIELD), Ascii(Decimal(n)));
  }

  /** The type line is no length line. */
  lemma TypeLine()
    ensures var text := Ascii("Content-Type: image/jpeg");
            13 !in text && text != [] && LengthOf(text) == None
  {
    var text := Ascii("Content-Type: image/jpeg");
    NoReturns("Content-Type: image/jpeg");
    assert text[..|LENGTH_FIELD|][8] == 'T' as int && Ascii(LENGTH_FIELD)[8] == 'L' as int;
  }

  lemma Crlf()
    ensures Ascii("\r\n") == [13, 10]
  {
  }

  lemma AsciiOfFive(a: string, n: string, b: string, c: string)
    ensures Ascii(a + n + b + n + c) == Ascii(a) + Ascii(n) + Ascii(b) + Ascii(n) + Ascii(c)
  {
    AsciiConcat(a + n + b + n, c);
    AsciiConcat(a + n + b, n);
    AsciiConcat(a + n, b);
    AsciiConcat(a, n);
  }

  lemma OpeningInLines()
    ensures Ascii(OPENING)
         == Ascii("--frame") + [13, 10] + Ascii("Content-Type: image/jpeg") + [13, 10] + Ascii(LENGTH_FIELD)
  {
    Crlf();
    AsciiOfFive("--frame", "\r\n", "Content-Type: image/jpeg", LENGTH_FIELD);
    SameOpening();
  }

  lemma SameOpening()
    ensures OPENING == "--frame" + "\r\n" + "Content-Type: image/jpeg" + "\r\n" + LENGTH_FIELD
  {
  }

  lemma BlankLineInBytes()
    ensures Ascii(BLANK_LINE) == [13, 10] + [13, 10]
  {
  }

  /** A part in lines. */
  lemma PartInLines(f: Bytes, rest: Bytes)
    ensures Part(f) + rest ==
            Ascii("--frame") + [13, 10] + (Ascii("Content-Type: image/jpeg") + [13, 10]
              + ((Ascii(LENGTH_FIELD) + Ascii(Decimal(|f|))) + [13, 10] + ([] + [13, 10] + (f + [13, 10] + rest))))
  {
    OpeningInLines();
    BlankLineInBytes();
    Crlf();
    Regroup(Ascii("--frame"), [13, 10], Ascii("Content-Type: image/jpeg"), Ascii(LENGTH_FIELD),
            Ascii(Decimal(|f|)), f, rest);
  }

  lemma Regroup(a: Bytes, n: Bytes, b: Bytes, c: Bytes, d: Bytes, f: Bytes, rest: Bytes)
    ensures ((a + n + b + n + c) + d + (n + n)) + f + n + rest
         == a + n + (b + n + ((c + d) + n + ([] + n + (f + n + rest))))
  {
  }

  lemma ReadsPart(f: Bytes, rest: Bytes)
    ensures ReadPart(Part(f) + rest) == Some(Body(f, rest))
  {
    var body := f + [13, 10] + rest;
    var length := Ascii(LENGTH_FIELD) + Ascii(Decimal(|f|));
    var third := length + [13, 10] + ([] + [13, 10] + body);
    var second := Ascii("Content-Type: image/jpeg") + [13, 10] + third;
    PartInLines(f, rest);
    NoReturns("--frame");
    ReadLineIs(Ascii("--frame"), second);
    ReadsHead(second, third, length, body, |f|);
    assert body[..|f|] == f && body[|f| + 2..] == rest;
  }

  lemma ReadsHead(second: Bytes, third: Bytes, length: Bytes, body: Bytes, n: nat)
    requires second == Ascii("Content-Type: image/jpeg") + [13, 10] + third
    requires third == length + [13, 10] + ([] + [13, 10] + body)
    requires length == Ascii(LENGTH_FIELD) + Ascii(Decimal(n))
    ensures ReadHead(second, None) == Some(Head(n, body))
  {
    TypeLine();
    LengthLine(n);
    ReadLineIs(Ascii("Content-Type: image/jpeg"), third);
    ReadLineIs(length, [] + [13, 10] + body);
    ReadLineIs([], body);
    assert ReadHead([] + [13, 10] + body, Some(n)) == Some(Head(n, body));
    assert ReadHead(third, None) == ReadHead([] + [13, 10] + body, Some(n));
  }

  /** All frames come back, images or not. */
  lemma {:induction false} ReaderGetsAll(frames: seq<Bytes>)
    ensures ReadAll(Flatten(Parts(frames))) == frames
  {
    FirstPart(frames);
    if frames != [] {
      ReadsPart(frames[0], Flatten(Parts(frames[1..])));
      ReaderGetsAll(frames[1..]);
      assert [frames[0]] + frames[1..] == frames;
    }
  }
}
