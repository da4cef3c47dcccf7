/** PEM textual encoding (sections 2 and 3 of RFC 7468): blocks without headers are printed in lines of
    64 characters, and read back out of arbitrary text. */
module Pem {
  import opened Wrappers
  import opened Bytes
  import Base64

  const BEGIN: bytes := Ascii("-----BEGIN ")
  const END: bytes := Ascii("-----END ")
  const DASHES: bytes := Ascii("-----")

  const LF: byte := 10
  const CR: byte := 13
  const TAB: byte := 9
  const SPACE: byte := 32
  const COLON: byte := 58
  const DASH: byte := 45

  datatype Block = Block(kind: bytes, contents: bytes)

  // ----- printing

  function Lines(text: bytes): bytes {
    if text == [] then []
    else if |text| <= 64 then text + [LF]
    else text[..64] + [LF] + Lines(text[64..])
  }

  // Everything but the newline that ends the END line.
  function EncodeOpen(b: Block): bytes {
    BEGIN + b.kind + DASHES + [LF] + Lines(Base64.Encode(b.contents)) + END + b.kind + DASHES
  }

  function Encode(b: Block): bytes {
    EncodeOpen(b) + [LF]
  }

  // Lines of 64 characters: every 65th byte is a line break and the others are the text.
  lemma {:induction false} LinesAre64(text: bytes, q: nat, r: nat)
    requires r <= 64 && 64 * q + r < |text|
    ensures 65 * q + r < |Lines(text)|
    ensures Lines(text)[65 * q + r] == if r == 64 then 0x0A else text[64 * q + r]
    decreases q
  {
    if q == 0 {
    } else {
      LinesAre64(text[64..], q - 1, r);
      var front := text[..64] + [LF];
      assert Lines(text) == front + Lines(text[64..]);
      assert text[64..][64 * (q - 1) + r] == text[64 * q + r];
    }
  }

  lemma {:induction false} LinesLength(text: bytes)
    ensures |Lines(text)| == |text| + (|text| + 63) / 64
    ensures text != [] ==> Lines(text)[|Lines(text)| - 1] == 0x0A
  {
    if |text| <= 64 {
    } else {
      LinesLength(text[64..]);
    }
  }

  // A printed block, in the ASCII of sections 2 and 3 of RFC 7468.
  lemma Layout(b: Block)
    ensures Encode(b) ==
            Ascii("-----BEGIN ") + b.kind + Ascii("-----") + [0x0A] + Lines(Base64.Encode(b.contents))
            + Ascii("-----END ") + b.kind + Ascii("-----") + [0x0A]
  {
  }

  // ----- reading

  predicate HasPrefix(s: bytes, prefix: bytes) {
    |prefix| <= |s| && s[..|prefix|] == prefix
  }

  predicate HasSuffix(s: bytes, suffix: bytes) {
    |suffix| <= |s| && s[|s| - |suffix|..] == suffix
  }

  // Position of the first c, or the length.
  function IndexByte(s: bytes, c: byte): (i: nat)
    ensures i <= |s|
    ensures forall j :: 0 <= j < i ==> s[j] != c
    ensures i < |s| ==> s[i] == c
  {
    if s == [] || s[0] == c then 0
    else
      var i := IndexByte(s[1..], c);
      assert forall j :: 1 <= j < i + 1 ==> s[j] == s[1..][j - 1];
      i + 1
  }

  // Position of the first occurrence of a pattern.
  function Index(s: bytes, pattern: bytes): (r: Option<nat>)
    ensures r.Some? ==> r.value + |pattern| <= |s| && HasPrefix(s[r.value..], pattern)
  {
    if HasPrefix(s, pattern) then Some(0)
    else if s == [] then None
    else
      match Index(s[1..], pattern)
      case None => None
      case Some(i) => assert s[i + 1..] == s[1..][i..]; Some(i + 1)
  }

  function TrimRight(s: bytes): (r: bytes)
    ensures HasPrefix(s, r)
  {
    if s != [] && (s[|s| - 1] == SPACE || s[|s| - 1] == TAB) then TrimRight(s[..|s| - 1]) else s
  }

  // The first line, trimmed, and what follows its line break.
  function GetLine(s: bytes): (r: (bytes, bytes))
    ensures |r.1| <= |s|
    ensures s != [] ==> |r.1| < |s|
  {
    var i := IndexByte(s, LF);
    var stop := if 0 < i < |s| && s[i - 1] == CR then i - 1 else i;
    (TrimRight(s[..stop]), if i < |s| then s[i + 1..] else [])
  }

  // What follows the next opening line's marker, which must start the text or a line.
  function AfterBegin(s: bytes): (r: Option<bytes>)
    ensures r.Some? ==> |r.value| < |s|
  {
    if HasPrefix(s, BEGIN) then Some(s[|BEGIN|..])
    else
      match Index(s, [LF] + BEGIN)
      case None => None
      case Some(i) => Some(s[i + 1 + |BEGIN|..])
  }

  // Header lines are those with a colon; the text ending among them means there is no block.
  function SkipHeaders(s: bytes, seen: bool): (r: Option<(bool, bytes)>)
    ensures r.Some? ==> |r.value.1| <= |s|
    decreases |s|
  {
    if s == [] then None
    else
      var (line, next) := GetLine(s);
      if COLON !in line then Some((seen, s)) else SkipHeaders(next, true)
  }

  // Where the body ends and where the END kind starts.
  function FindEnd(s: bytes, headers: bool): Option<(nat, nat)> {
    if !headers && HasPrefix(s, END) then Some((0, |END|))
    else
      match Index(s, [LF] + END)
      case None => None
      case Some(i) => Some((i, i + 1 + |END|))
  }

  function Finish(kind: bytes, s: bytes, headers: bool): (r: Option<(Block, bytes)>)
    ensures r.Some? ==> |r.value.1| <= |s|
  {
    match FindEnd(s, headers)
    case None => None
    case Some((end, trailer)) =>
      if |s| - trailer < |kind| + |DASHES| then None
      else
        var endLabel := s[trailer..trailer + |kind| + |DASHES|];
        var after := s[trailer + |kind| + |DASHES|..];
        if !HasPrefix(endLabel, kind) || !HasSuffix(endLabel, DASHES) || GetLine(after).0 != [] then None
        else
          match Base64.Decode(Base64.Without(s[..end], SPACE, TAB))
          case None => None
          case Some(contents) => Some((Block(kind, contents), GetLine(s[end + |END|..]).1))
  }

  // The first block and the rest of the text after it; text that is no block is skipped.
  function Decode(s: bytes): (r: Option<(Block, bytes)>)
    ensures r.Some? ==> |r.value.1| < |s|
    decreases |s|
  {
    match AfterBegin(s)
    case None => None
    case Some(afterMarker) =>
      var (typeLine, rest) := GetLine(afterMarker);
      if !HasSuffix(typeLine, DASHES) then Decode(rest)
      else
        var kind := typeLine[..|typeLine| - |DASHES|];
        match SkipHeaders(rest, false)
        case None => None
        case Some((headers, body)) =>
          match Finish(kind, body, headers)
          case None => Decode(body)
          case Some(r) => Some(r)
  }

  // ----- a printed block reads back, whatever follows its last line

  // A kind the opening line can carry: one line, and nothing a header line would need.
  predicate PlainKind(kind: bytes) {
    forall i :: 0 <= i < |kind| ==> kind[i] != LF && kind[i] != COLON
  }

  predicate EndsVisibly(line: bytes) {
    line == [] || (line[|line| - 1] != CR && line[|line| - 1] != SPACE && line[|line| - 1] != TAB)
  }

  lemma IndexByteAt(s: bytes, c: byte, i: nat)
    requires i <= |s| && forall j :: 0 <= j < i ==> s[j] != c
    requires i < |s| ==> s[i] == c
    ensures IndexByte(s, c) == i
  {
  }

  lemma LineThen(line: bytes, rest: bytes)
    requires EndsVisibly(line) && LF !in line
    ensures GetLine(line + [LF] + rest) == (line, rest)
  {
    var s := line + [LF] + rest;
    IndexByteAt(s, LF, |line|);
    assert s[..|line|] == line;
    assert s[|line| + 1..] == rest;
  }

  lemma LastLine(line: bytes)
    requires EndsVisibly(line) && LF !in line
    ensures GetLine(line) == (line, [])
  {
    IndexByteAt(line, LF, |line|);
    assert line[..|line|] == line;
  }

  // The rest of the text once its first, already checked, line is dropped.
  function AfterBreak(tail: bytes): bytes {
    if tail == [] then [] else tail[1..]
  }

  // A line followed by the end of the text or by a line break.
  lemma LineOf(line: bytes, tail: bytes)
    requires EndsVisibly(line) && LF !in line
    requires tail == [] || tail[0] == LF
    ensures GetLine(line + tail) == (line, AfterBreak(tail))
  {
    if tail == [] {
      assert line + tail == line;
      LastLine(line);
    } else {
      assert line + tail == line + [LF] + tail[1..];
      LineThen(line, tail[1..]);
    }
  }

  lemma {:induction false} IndexIs(s: bytes, pattern: bytes, i: nat)
    requires i <= |s| && HasPrefix(s[i..], pattern)
    requires forall j :: 0 <= j < i ==> !HasPrefix(s[j..], pattern)
    ensures Index(s, pattern) == Some(i)
  {
    assert s[0..] == s;
    if i == 0 {
    } else {
      assert s[1..][i - 1..] == s[i..];
      forall j | 0 <= j < i - 1
        ensures !HasPrefix(s[1..][j..], pattern)
      {
        assert s[1..][j..] == s[j + 1..];
      }
      IndexIs(s[1..], pattern, i - 1);
    }
  }

  // A body byte: base64 text or the line breaks between.
  predicate BodyByte(c: byte) {
    Base64.Letter(c) || c == LF
  }

  lemma BodyByteIsPlain(c: byte)
    requires BodyByte(c)
    ensures c !in {DASH, COLON, SPACE, TAB, CR}
  {
  }

  // The printed lines, without the newline that ends the last of them.
  function Body(text: bytes): (body: bytes)
    requires text != []
    ensures Lines(text) == body + [LF]
  {
    if |text| <= 64 then text else text[..64] + [LF] + Body(text[64..])
  }

  lemma {:induction false} BodyBytes(text: bytes)
    requires text != [] && Base64.Letters(text)
    ensures Body(text) != [] && Base64.Letter(Body(text)[0])
    ensures forall i :: 0 <= i < |Body(text)| ==> BodyByte(Body(text)[i])
  {
    if |text| <= 64 {
    } else {
      BodyBytes(text[64..]);
    }
  }

  lemma WithoutBreak(bs: bytes)
    ensures Base64.Without([LF] + bs, CR, LF) == Base64.Without(bs, CR, LF)
  {
    assert ([LF] + bs)[1..] == bs;
  }

  lemma {:induction false} BodyText(text: bytes)
    requires text != [] && Base64.Letters(text)
    ensures Base64.Without(Body(text), CR, LF) == text
  {
    hide Base64.Without;
    if |text| <= 64 {
      Base64.WithoutNothing(text, CR, LF);
    } else {
      var head, tail := text[..64], text[64..];
      BodyText(tail);
      Base64.WithoutNothing(head, CR, LF);
      WithoutBreak(Body(tail));
      Base64.WithoutAppend(head, [LF] + Body(tail), CR, LF);
      assert head + [LF] + Body(tail) == head + ([LF] + Body(tail));
      assert text == head + tail;
    }
  }

  lemma DecodeBody(contents: bytes)
    requires contents != []
    ensures Base64.Decode(Base64.Without(Body(Base64.Encode(contents)), SPACE, TAB)) == Some(contents)
  {
    var text := Base64.Encode(contents);
    BodyBytes(text);
    Base64.WithoutNothing(Body(text), SPACE, TAB);
    BodyText(text);
    Base64.DecodeEncode(contents);
  }

  lemma Markers()
    ensures |BEGIN| == 11 && |END| == 9 && |DASHES| == 5
    ensures BEGIN[0] == DASH && END[0] == DASH && END[8] == SPACE && DASHES[4] == DASH
    ensures forall i :: 0 <= i < |END| ==> END[i] != COLON && END[i] != LF
    ensures forall i :: 0 <= i < |DASHES| ==> DASHES[i] != COLON && DASHES[i] != LF
  {
  }

  // The pieces Finish cuts when the END line comes at once.
  lemma EmptyPieces(line: bytes, tail: bytes)
    ensures var s := END + (line + tail);
            && |s| == 9 + |line| + |tail|
            && HasPrefix(s, END)
            && s[..0] == []
            && s[9..9 + |line|] == line
            && s[9 + |line|..] == tail
            && s[9..] == line + tail
  {
    Markers();
  }

  lemma DecodeNothing()
    ensures Base64.Decode(Base64.Without([], SPACE, TAB)) == Some([])
  {
  }

  lemma EndOfEmpty(kind: bytes, tail: bytes)
    requires PlainKind(kind) && (tail == [] || tail[0] == LF)
    ensures Finish(kind, END + (kind + DASHES + tail), false) == Some((Block(kind, []), AfterBreak(tail)))
  {
    hide Base64.Decode, Base64.Without, GetLine;
    Markers();
    var line := kind + DASHES;
    EmptyPieces(line, tail);
    assert line[..|kind|] == kind && line[|kind|..] == DASHES;
    LineOf([], tail);
    assert [] + tail == tail;
    LineOf(line, tail);
    DecodeNothing();
  }

  lemma FindEndOfBody(body: bytes, after: bytes)
    requires body != [] && Base64.Letter(body[0])
    requires forall i :: 0 <= i < |body| ==> BodyByte(body[i])
    ensures FindEnd(body + [LF] + END + after, false) == Some((|body|, |body| + 10))
  {
    Markers();
    var s := body + [LF] + END + after;
    BodyByteIsPlain(body[0]);
    assert s[0] == body[0] != END[0];
    assert s[|body|..] == [LF] + END + after;
    assert HasPrefix(s[|body|..], [LF] + END);
    forall j | 0 <= j < |body|
      ensures !HasPrefix(s[j..], [LF] + END)
    {
      if HasPrefix(s[j..], [LF] + END) {
        assert s[j..][..10][1] == ([LF] + END)[1] == DASH;
        assert s[j + 1] == DASH;
        if j + 1 < |body| {
          BodyByteIsPlain(body[j + 1]);
        }
      }
    }
    IndexIs(s, [LF] + END, |body|);
  }

  // The pieces Finish cuts out of body, END marker, END label and tail.
  lemma Pieces(body: bytes, line: bytes, tail: bytes)
    ensures var s, t := body + [LF] + END + (line + tail), |body| + 10;
            && |s| == t + |line| + |tail|
            && s[..|body|] == body
            && s[t..t + |line|] == line
            && s[t + |line|..] == tail
            && s[|body| + |END|..] == ([SPACE] + line) + tail
  {
    Markers();
  }

  lemma EndOfBody(kind: bytes, contents: bytes, tail: bytes)
    requires PlainKind(kind) && (tail == [] || tail[0] == LF)
    requires contents != []
    ensures Finish(kind, Body(Base64.Encode(contents)) + [LF] + END + (kind + DASHES + tail), false)
         == Some((Block(kind, contents), AfterBreak(tail)))
  {
    hide Base64.Decode, Base64.Encode, Base64.Without, Body, FindEnd, GetLine, Finish, AfterBreak;
    Markers();
    var body, line := Body(Base64.Encode(contents)), kind + DASHES;
    BodyBytes(Base64.Encode(contents));
    FindEndOfBody(body, line + tail);
    Pieces(body, line, tail);
    LineOf([], tail);
    assert [] + tail == tail;
    DecodeBody(contents);
    LineOf([SPACE] + line, tail);
    FinishPieces(kind, body + [LF] + END + (line + tail), |body|, tail, contents, AfterBreak(tail));
  }

  lemma FinishPieces(kind: bytes, s: bytes, end: nat, tail: bytes, contents: bytes, rest: bytes)
    requires FindEnd(s, false) == Some((end, end + 10)) && |END| == 9 && |DASHES| == 5
    requires |s| == end + 10 + |kind + DASHES| + |tail|
    requires s[end + 10..end + 10 + |kind + DASHES|] == kind + DASHES && s[end + 10 + |kind + DASHES|..] == tail
    requires GetLine(tail).0 == [] && GetLine(s[end + 9..]).1 == rest
    requires Base64.Decode(Base64.Without(s[..end], SPACE, TAB)) == Some(contents)
    ensures Finish(kind, s, false) == Some((Block(kind, contents), rest))
  {
    hide Base64.Decode, Base64.Without, FindEnd, GetLine, Ascii;
    var line := kind + DASHES;
    assert line[..|kind|] == kind && line[|kind|..] == DASHES;
  }

  // No header line: the text up to the first line break has no colon.
  lemma NoHeaders(s: bytes, i: nat)
    requires s != [] && i <= |s| && (i < |s| ==> s[i] == LF)
    requires forall j :: 0 <= j < i ==> s[j] != COLON
    ensures SkipHeaders(s, false) == Some((false, s))
  {
    var stop := IndexByte(s, LF);
    assert stop <= i;
    var line := GetLine(s).0;
    assert HasPrefix(s, line);
    assert forall j :: 0 <= j < |line| ==> line[j] == s[j];
  }

  lemma {:induction false} TrimBlanks(line: bytes, blanks: bytes)
    requires EndsVisibly(line) && forall i :: 0 <= i < |blanks| ==> blanks[i] == 0x20 || blanks[i] == 0x09
    ensures TrimRight(line + blanks) == line
  {
    if blanks == [] {
      assert line + blanks == line;
    } else {
      var n := |blanks| - 1;
      TrimBlanks(line, blanks[..n]);
      assert (line + blanks)[..|line + blanks| - 1] == line + blanks[..n];
    }
  }

  // Blanks and tabs at the end of a line do not belong to it, nor does a carriage return before its break.
  lemma LineVariants(line: bytes, blanks: bytes, rest: bytes)
    requires EndsVisibly(line) && LF !in line && forall i :: 0 <= i < |blanks| ==>
             blanks[i] == 0x20 || blanks[i] == 0x09
    ensures GetLine(line + blanks + [0x0A] + rest) == (line, rest)
    ensures GetLine(line + blanks + [0x0D, 0x0A] + rest) == (line, rest)
  {
    hide TrimRight;
    TrimBlanks(line, blanks);
    var w, n := line + blanks, |line + blanks|;
    var plain, returned := w + [0x0A] + rest, w + [0x0D, 0x0A] + rest;
    assert LF !in w;
    IndexByteAt(plain, LF, n);
    IndexByteAt(returned, LF, n + 1);
    assert plain[..n] == w && plain[n + 1..] == rest;
    assert returned[..n] == w && returned[n] == 0x0D && returned[n + 2..] == rest;
    assert n > 0 ==> w[n - 1] != CR;
  }

  // A line with a colon after the opening line is a header, and is skipped.
  lemma HeaderLine(line: bytes, rest: bytes, seen: bool)
    requires LF !in line && EndsVisibly(line) && ':' as int in line
    ensures SkipHeaders(line + [LF] + rest, seen) == SkipHeaders(rest, true)
  {
    LineThen(line, rest);
  }

  lemma DecodeOpening(kind: bytes, body: bytes, r: (Block, bytes))
    requires PlainKind(kind)
    requires SkipHeaders(body, false) == Some((false, body))
    requires Finish(kind, body, false) == Some(r)
    ensures Decode(BEGIN + kind + DASHES + [LF] + body) == Some(r)
  {
    hide Finish, SkipHeaders;
    Markers();
    var s := BEGIN + kind + DASHES + [LF] + body;
    var line := kind + DASHES;
    assert s[11..] == line + [LF] + body;
    assert HasPrefix(s, BEGIN);
    LineThen(line, body);
    assert HasSuffix(line, DASHES);
    assert line[..|kind|] == kind;
  }

  // What the printer puts after the opening line, followed by a tail.
  function AfterOpening(b: Block, tail: bytes): bytes {
    Lines(Base64.Encode(b.contents)) + END + (b.kind + DASHES + tail)
  }

  lemma ReadAfterOpening(b: Block, tail: bytes)
    requires PlainKind(b.kind)
    requires tail == [] || tail[0] == LF
    ensures SkipHeaders(AfterOpening(b, tail), false) == Some((false, AfterOpening(b, tail)))
    ensures Finish(b.kind, AfterOpening(b, tail), false) == Some((b, AfterBreak(tail)))
  {
    hide Finish, SkipHeaders, Base64.Encode, Lines, Body;
    Markers();
    var text, body := Base64.Encode(b.contents), AfterOpening(b, tail);
    if b.contents == [] {
      EncodeNothing();
      assert body == END + (b.kind + DASHES + tail);
      NoHeaders(body, 9 + |b.kind| + 5);
      EndOfEmpty(b.kind, tail);
    } else {
      BodyBytes(text);
      assert body == Body(text) + [LF] + END + (b.kind + DASHES + tail);
      NoHeaders(body, |Body(text)|);
      EndOfBody(b.kind, b.contents, tail);
    }
  }

  // The first block of a text is the printed one, and the rest is what followed its END line.
  lemma DecodeEncoded(b: Block, tail: bytes)
    requires PlainKind(b.kind)
    requires tail == [] || tail[0] == LF
    ensures Decode(EncodeOpen(b) + tail) == Some((b, AfterBreak(tail)))
  {
    hide Decode, Finish, SkipHeaders, Base64.Encode, Lines, Ascii;
    ReadAfterOpening(b, tail);
    DecodeOpening(b.kind, AfterOpening(b, tail), (b, AfterBreak(tail)));
    assert EncodeOpen(b) + tail == BEGIN + b.kind + DASHES + [LF] + AfterOpening(b, tail);
  }

  lemma EncodeNothing()
    ensures Base64.Encode([]) == [] && Lines([]) == []
  {
  }

  lemma DecodeEncodedThen(b: Block, rest: bytes)
    requires PlainKind(b.kind)
    ensures Decode(Encode(b) + rest) == Some((b, rest))
  {
    assert Encode(b) + rest == EncodeOpen(b) + ([LF] + rest);
    DecodeEncoded(b, [LF] + rest);
    assert AfterBreak([LF] + rest) == rest;
  }

  lemma BeginAfterText(text: bytes, t: bytes)
    requires DASH !in text && HasPrefix(t, BEGIN)
    ensures AfterBegin(text + [LF] + t) == AfterBegin(t)
  {
    Markers();
    var s := text + [LF] + t;
    assert s[0] != DASH;
    assert s[|text|..] == [LF] + t;
    assert HasPrefix(s[|text|..], [LF] + BEGIN);
    forall j | 0 <= j < |text|
      ensures !HasPrefix(s[j..], [LF] + BEGIN)
    {
      assert s[j + 1] != DASH;
      assert s[j..][..12][1] == s[j + 1];
      assert ([LF] + BEGIN)[1] == DASH;
    }
    IndexIs(s, [LF] + BEGIN, |text|);
    assert s[|text| + 1 + |BEGIN|..] == t[|BEGIN|..];
  }

  // Lines before a block are skipped.
  lemma DecodeAfterText(text: bytes, b: Block, rest: bytes)
    requires PlainKind(b.kind) && DASH !in text
    ensures Decode(text + [LF] + (Encode(b) + rest)) == Some((b, rest))
  {
    hide AfterBegin, SkipHeaders, Finish, GetLine, Ascii, Lines, Base64.Encode;
    var t := Encode(b) + rest;
    assert t[..|BEGIN|] == BEGIN;
    BeginAfterText(text, t);
    DecodeEncodedThen(b, rest);
  }
}
