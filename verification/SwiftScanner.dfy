/** The hand-written Swift manifest scanner of internal/releasebundle/swiftmanifest.go. */
module SwiftScanner {
  import opened Wrappers

  // ---- string literals ----------------------------------------------------------

  /** What starts at a position: no literal, a literal ending before `end`, or one that is refused. */
  datatype Literal = NoLiteral | Closed(end: nat) | Refused

  function PlainEnd(raw: string, i: nat): Literal
    decreases |raw| - i
  {
    if i >= |raw| then Refused
    else if raw[i] == '\\' then PlainEnd(raw, i + 2)
    else if raw[i] == '"' then Closed(i + 1)
    else PlainEnd(raw, i + 1)
  }

  function Hashes(raw: string, i: nat): nat
    decreases |raw| - i
  {
    if i < |raw| && raw[i] == '#' then 1 + Hashes(raw, i + 1) else 0
  }

  predicate AllHashes(raw: string, i: nat, n: nat) {
    i + n <= |raw| && forall j :: i <= j < i + n ==> raw[j] == '#'
  }

  predicate RawCloses(raw: string, i: nat, hashes: nat) {
    i < |raw| && raw[i] == '"' && AllHashes(raw, i + 1, hashes)
  }

  function RawEnd(raw: string, i: nat, hashes: nat): Literal
    decreases |raw| - i
  {
    if i >= |raw| then Refused
    else if RawCloses(raw, i, hashes) then Closed(i + 1 + hashes)
    else RawEnd(raw, i + 1, hashes)
  }

  predicate TripleQuote(raw: string, i: nat) {
    i + 2 < |raw| && raw[i] == '"' && raw[i + 1] == '"' && raw[i + 2] == '"'
  }

  /** The literal that starts at a position: ordinary, or raw with matching hashes; never multiline. */
  function LiteralAt(raw: string, start: nat): Literal {
    if start >= |raw| then NoLiteral
    else if raw[start] == '"' then if TripleQuote(raw, start) then Refused else PlainEnd(raw, start + 1)
    else if raw[start] != '#' then NoLiteral
    else
      var q := start + Hashes(raw, start);
      if q >= |raw| || raw[q] != '"' then NoLiteral
      else if TripleQuote(raw, q) then Refused
      else RawEnd(raw, q + 1, q - start)
  }

  method PlainStringEnd(raw: string, start: nat) returns (r: Literal)
    ensures r == PlainEnd(raw, start)
  {
    var i := start;
    while i < |raw|
      invariant PlainEnd(raw, start) == PlainEnd(raw, i)
    {
      if raw[i] == '\\' { i := i + 2; continue; }
      if raw[i] == '"' { return Closed(i + 1); }
      i := i + 1;
    }
    return Refused;
  }

  method ClosesRaw(raw: string, i: nat, hashes: nat) returns (closes: bool)
    requires i < |raw|
    ensures closes <==> RawCloses(raw, i, hashes)
  {
    if raw[i] != '"' || i + hashes >= |raw| { return false; }
    for j := 0 to hashes
      invariant AllHashes(raw, i + 1, j)
    {
      if raw[i + 1 + j] != '#' { return false; }
    }
    return true;
  }

  method RawStringEnd(raw: string, start: nat, hashes: nat) returns (r: Literal)
    ensures r == RawEnd(raw, start, hashes)
  {
    var i := start;
    while i < |raw|
      invariant RawEnd(raw, start, hashes) == RawEnd(raw, i, hashes)
    {
      var closes := ClosesRaw(raw, i, hashes);
      if closes { return Closed(i + 1 + hashes); }
      i := i + 1;
    }
    return Refused;
  }

  method SwiftStringEnd(raw: string, start: nat) returns (r: Literal)
    ensures r == LiteralAt(raw, start)
  {
    if start >= |raw| { return NoLiteral; }
    if raw[start] == '"' {
      if TripleQuote(raw, start) { return Refused; }
      r := PlainStringEnd(raw, start + 1);
      return;
    }
    if raw[start] != '#' { return NoLiteral; }
    var hashes := 0;
    while start + hashes < |raw| && raw[start + hashes] == '#'
      invariant start + hashes <= |raw| && hashes + Hashes(raw, start + hashes) == Hashes(raw, start)
    {
      hashes := hashes + 1;
    }
    var q := start + hashes;
    if q >= |raw| || raw[q] != '"' { return NoLiteral; }
    if TripleQuote(raw, q) { return Refused; }
    r := RawStringEnd(raw, q + 1, hashes);
  }

  lemma {:induction false} PlainEndBounds(raw: string, i: nat)
    ensures var r := PlainEnd(raw, i); r != NoLiteral && (r.Closed? ==> i < r.end <= |raw| && raw[r.end - 1] == '"')
    decreases |raw| - i
  {
    if i >= |raw| { return; }
    if raw[i] == '\\' { PlainEndBounds(raw, i + 2); }
    else if raw[i] != '"' { PlainEndBounds(raw, i + 1); }
  }

  lemma {:induction false} RawEndBounds(raw: string, i: nat, hashes: nat)
    ensures var r := RawEnd(raw, i, hashes);
      r != NoLiteral && (r.Closed? ==> i + 1 + hashes <= r.end <= |raw| && RawCloses(raw, r.end - 1 - hashes, hashes))
    decreases |raw| - i
  {
    if i < |raw| && !RawCloses(raw, i, hashes) { RawEndBounds(raw, i + 1, hashes); }
  }

  lemma {:induction false} HashesBounds(raw: string, i: nat)
    requires i <= |raw|
    ensures AllHashes(raw, i, Hashes(raw, i))
    ensures var q := i + Hashes(raw, i); q < |raw| ==> raw[q] != '#'
    decreases |raw| - i
  {
    if i < |raw| && raw[i] == '#' { HashesBounds(raw, i + 1); }
  }

  lemma LiteralBounds(raw: string, i: nat)
    ensures var r := LiteralAt(raw, i); r.Closed? ==> i + 1 < r.end <= |raw|
  {
    if i >= |raw| { return; }
    PlainEndBounds(raw, i + 1);
    HashesBounds(raw, i);
    RawEndBounds(raw, i + Hashes(raw, i) + 1, Hashes(raw, i));
  }

  // ---- comments ------------------------------------------------------------------

  predicate Starts(raw: string, i: nat, a: char, b: char) { i + 1 < |raw| && raw[i] == a && raw[i + 1] == b }

  function LineEnd(raw: string, i: nat): nat
    decreases |raw| - i
  {
    if i < |raw| && raw[i] != '\n' then LineEnd(raw, i + 1) else i
  }

  /** The end of a block comment of which `depth` levels are open at i. */
  function BlockEnd(raw: string, i: nat, depth: nat): Option<nat>
    decreases |raw| - i
  {
    if depth == 0 then Some(i)
    else if i >= |raw| then None
    else if Starts(raw, i, '/', '*') then BlockEnd(raw, i + 2, depth + 1)
    else if Starts(raw, i, '*', '/') then BlockEnd(raw, i + 2, depth - 1)
    else BlockEnd(raw, i + 1, depth)
  }

  /** One lexical piece: a literal, a whole comment, or a single byte of code. */
  datatype Piece = Text(end: nat) | Comment(end: nat) | Malformed

  function PieceAt(raw: string, i: nat): Piece {
    match LiteralAt(raw, i)
    case Refused => Malformed
    case Closed(e) => Text(e)
    case NoLiteral =>
      if Starts(raw, i, '/', '/') then Comment(LineEnd(raw, i))
      else if Starts(raw, i, '/', '*') then
        var e := BlockEnd(raw, i + 2, 1);
        if e.None? then Malformed else Comment(e.value)
      else Text(i + 1)
  }

  lemma {:induction false} LineEndBounds(raw: string, i: nat)
    requires i <= |raw|
    ensures i <= LineEnd(raw, i) <= |raw|
    ensures forall k :: i <= k < LineEnd(raw, i) ==> raw[k] != '\n'
    decreases |raw| - i
  {
    if i < |raw| && raw[i] != '\n' { LineEndBounds(raw, i + 1); }
  }

  lemma {:induction false} BlockEndBounds(raw: string, i: nat, depth: nat)
    requires i <= |raw|
    ensures var e := BlockEnd(raw, i, depth); e.Some? ==> i <= e.value <= |raw| && (depth > 0 ==> i < e.value)
    decreases |raw| - i
  {
    if depth == 0 || i >= |raw| { return; }
    if Starts(raw, i, '/', '*') { BlockEndBounds(raw, i + 2, depth + 1); }
    else if Starts(raw, i, '*', '/') { BlockEndBounds(raw, i + 2, depth - 1); }
    else { BlockEndBounds(raw, i + 1, depth); }
  }

  lemma PieceBounds(raw: string, i: nat)
    requires i < |raw|
    ensures var p := PieceAt(raw, i); !p.Malformed? ==> i < p.end <= |raw|
    ensures PieceAt(raw, i).Comment? ==> raw[i] == '/'
  {
    LiteralBounds(raw, i);
    if Starts(raw, i, '/', '/') { LineEndBounds(raw, i + 1); }
    if Starts(raw, i, '/', '*') { BlockEndBounds(raw, i + 2, 1); }
  }

  function Blank(c: char): char { if c == '\n' then '\n' else ' ' }
  function Blanks(s: string): string { seq(|s|, i requires 0 <= i < |s| => Blank(s[i])) }

  /** The text from i on with every comment blanked out whole and everything else copied. */
  function Render(raw: string, i: nat): Option<string>
    decreases |raw| - i
  {
    if i >= |raw| then Some("") else
      var p := PieceAt(raw, i);
      PieceBounds(raw, i);
      if p.Malformed? then None else
        var rest := Render(raw, p.end);
        if rest.None? then None
        else Some((if p.Comment? then Blanks(raw[i..p.end]) else raw[i..p.end]) + rest.value)
  }

  /** Inside a comment the scanner goes byte by byte (pairs for delimiters); outside, piece by piece. */
  function RenderFrom(raw: string, i: nat, depth: nat): Option<string> {
    if depth == 0 then Render(raw, i) else
      var e := BlockEnd(raw, i, depth);
      if e.None? || !(i <= e.value <= |raw|) then None else
        var rest := Render(raw, e.value);
        if rest.None? then None else Some(Blanks(raw[i..e.value]) + rest.value)
  }

  /** What has been written so far, followed by what is still to come, is the whole result. */
  ghost predicate OnTrack(raw: string, out: string, i: nat, depth: nat) {
    match RenderFrom(raw, i, depth)
    case None => Render(raw, 0).None?
    case Some(rest) => Render(raw, 0) == Some(out + rest)
  }

  lemma InsideComment(raw: string, i: nat, depth: nat, width: nat, depth': nat)
    requires depth > 0 && i + width <= |raw| && width > 0
    requires BlockEnd(raw, i, depth) == BlockEnd(raw, i + width, depth')
    ensures var r, r' := RenderFrom(raw, i, depth), RenderFrom(raw, i + width, depth');
      (r.None? <==> r'.None?) && (r.Some? ==> r.value == Blanks(raw[i..i + width]) + r'.value)
  {
    var e := BlockEnd(raw, i, depth);
    BlockEndBounds(raw, i, depth);
    BlockEndBounds(raw, i + width, depth');
    if e.Some? {
      assert depth' == 0 ==> e.value == i + width;
      assert Blanks(raw[i..e.value]) == Blanks(raw[i..i + width]) + Blanks(raw[i + width..e.value]);
    }
  }

  lemma OutsideComment(raw: string, i: nat)
    requires i < |raw|
    ensures var p := PieceAt(raw, i);
      if p.Malformed? then Render(raw, i).None?
      else i < p.end <= |raw| && var rest := Render(raw, p.end);
        (Render(raw, i).None? <==> rest.None?)
        && (rest.Some? ==> Render(raw, i) == Some((if p.Comment? then Blanks(raw[i..p.end]) else raw[i..p.end]) + rest.value))
  {
    PieceBounds(raw, i);
  }

  /** A step that writes `text` and leaves the remainder `rest'` keeps the scan on track. */
  lemma TrackStep(raw: string, out: string, i: nat, depth: nat, text: string, j: nat, depth': nat)
    requires OnTrack(raw, out, i, depth)
    requires var r, r' := RenderFrom(raw, i, depth), RenderFrom(raw, j, depth');
      (r.None? <==> r'.None?) && (r.Some? ==> r.value == text + r'.value)
    ensures OnTrack(raw, out + text, j, depth')
  {
    var r' := RenderFrom(raw, j, depth');
    if r'.Some? { assert out + (text + r'.value) == (out + text) + r'.value; }
  }

  /** Opening a block comment: its blanked text is the opener's two spaces and the blanked inside. */
  lemma OpenComment(raw: string, i: nat)
    requires i < |raw| && LiteralAt(raw, i) == NoLiteral && Starts(raw, i, '/', '*')
    ensures var r, r' := Render(raw, i), RenderFrom(raw, i + 2, 1);
      (r.None? <==> r'.None?) && (r.Some? ==> r.value == "  " + r'.value)
  {
    OutsideComment(raw, i);
    BlockEndBounds(raw, i + 2, 1);
    var e := BlockEnd(raw, i + 2, 1);
    if e.Some? { OpenerIsTwoBlanks(raw, i, e.value, Render(raw, e.value)); }
  }

  lemma OpenerIsTwoBlanks(raw: string, i: nat, e: nat, rest: Option<string>)
    requires i + 2 <= e <= |raw| && Starts(raw, i, '/', '*')
    ensures Blanks(raw[i..e]) == "  " + Blanks(raw[i + 2..e])
    ensures rest.Some? ==> Blanks(raw[i..e]) + rest.value == "  " + (Blanks(raw[i + 2..e]) + rest.value)
  {
    assert Blank('/') == ' ' && Blank('*') == ' ';
  }

  lemma TrackStart(raw: string)
    ensures OnTrack(raw, "", 0, 0)
  {
    var r := Render(raw, 0);
    if r.Some? { assert "" + r.value == r.value; }
  }

  lemma TrackInside(raw: string, out: string, i: nat, depth: nat, text: string, depth': nat)
    requires OnTrack(raw, out, i, depth) && depth > 0 && i + |text| <= |raw| && text != ""
    requires BlockEnd(raw, i, depth) == BlockEnd(raw, i + |text|, depth') && text == Blanks(raw[i..i + |text|])
    ensures OnTrack(raw, out + text, i + |text|, depth')
  {
    InsideComment(raw, i, depth, |text|, depth');
    TrackStep(raw, out, i, depth, text, i + |text|, depth');
  }

  lemma TrackPiece(raw: string, out: string, i: nat)
    requires OnTrack(raw, out, i, 0) && i < |raw|
    ensures var p := PieceAt(raw, i);
      if p.Malformed? then Render(raw, 0).None?
      else i < p.end <= |raw| && OnTrack(raw, out + (if p.Comment? then Blanks(raw[i..p.end]) else raw[i..p.end]), p.end, 0)
  {
    OutsideComment(raw, i);
    var p := PieceAt(raw, i);
    if !p.Malformed? {
      TrackStep(raw, out, i, 0, if p.Comment? then Blanks(raw[i..p.end]) else raw[i..p.end], p.end, 0);
    }
  }

  lemma TrackOpen(raw: string, out: string, i: nat)
    requires OnTrack(raw, out, i, 0) && i < |raw| && LiteralAt(raw, i) == NoLiteral && Starts(raw, i, '/', '*')
    ensures OnTrack(raw, out + "  ", i + 2, 1)
  {
    OpenComment(raw, i);
    TrackStep(raw, out, i, 0, "  ", i + 2, 1);
  }

  lemma OneBlankMore(raw: string, a: nat, b: nat)
    requires a <= b < |raw|
    ensures Blanks(raw[a..b + 1]) == Blanks(raw[a..b]) + [Blank(raw[b])]
  {}

  /** A line comment, blanked up to the end of its line. */
  method SkipLine(raw: string, start: nat) returns (i: nat, blanks: string)
    requires start <= |raw|
    ensures i == LineEnd(raw, start) && start <= i <= |raw| && blanks == Blanks(raw[start..i])
  {
    i, blanks := start, "";
    while i < |raw| && raw[i] != '\n'
      invariant start <= i <= |raw| && LineEnd(raw, start) == LineEnd(raw, i) && blanks == Blanks(raw[start..i])
    {
      OneBlankMore(raw, start, i);
      blanks, i := blanks + [' '], i + 1;
    }
  }

  lemma TwoBlanks(raw: string, i: nat)
    requires Starts(raw, i, '/', '*') || Starts(raw, i, '*', '/')
    ensures i + 2 <= |raw| && Blanks(raw[i..i + 2]) == "  "
  {
    assert Blank('/') == ' ' && Blank('*') == ' ';
  }

  lemma OneBlank(raw: string, i: nat)
    requires i < |raw|
    ensures Blanks(raw[i..i + 1]) == [Blank(raw[i])]
  {}

  /** Inside a block comment: delimiters change the depth, and everything but newlines is blanked. */
  method CommentStep(raw: string, depth: nat, text: string, start: nat) returns (blockDepth: nat, out: string, i: nat)
    requires depth > 0 && start < |raw| && OnTrack(raw, text, start, depth)
    ensures start < i <= |raw| && OnTrack(raw, out, i, blockDepth)
  {
    if Starts(raw, start, '/', '*') {
      TwoBlanks(raw, start);
      TrackInside(raw, text, start, depth, "  ", depth + 1);
      return depth + 1, text + "  ", start + 2;
    }
    if Starts(raw, start, '*', '/') {
      TwoBlanks(raw, start);
      TrackInside(raw, text, start, depth, "  ", depth - 1);
      return depth - 1, text + "  ", start + 2;
    }
    OneBlank(raw, start);
    TrackInside(raw, text, start, depth, [Blank(raw[start])], depth);
    return depth, text + (if raw[start] == '\n' then "\n" else " "), start + 1;
  }

  method StripSwiftComments(raw: string) returns (r: Option<string>)
    ensures r == Render(raw, 0)
  {
    var out := "";
    var blockDepth := 0;
    var i := 0;
    TrackStart(raw);
    while i < |raw|
      invariant i <= |raw| && OnTrack(raw, out, i, blockDepth)
      decreases |raw| - i
    {
      if blockDepth > 0 {
        blockDepth, out, i := CommentStep(raw, blockDepth, out, i);
        continue;
      }
      var lit := SwiftStringEnd(raw, i);
      TrackPiece(raw, out, i);
      if lit == Refused { return None; }
      if lit.Closed? {
        out, i := out + raw[i..lit.end], lit.end;
        continue;
      }
      if Starts(raw, i, '/', '/') {
        var blanks;
        i, blanks := SkipLine(raw, i);
        out := out + blanks;
        continue;
      }
      if Starts(raw, i, '/', '*') {
        TrackOpen(raw, out, i);
        blockDepth, out, i := 1, out + "  ", i + 2;
        continue;
      }
      assert raw[i..i + 1] == [raw[i]];
      out, i := out + [raw[i]], i + 1;
    }
    if blockDepth != 0 { return None; }
    assert out + "" == out;
    return Some(out);
  }

  // ---- what stripping promises ------------------------------------------------------

  /** Byte by byte: same length, newlines kept, and any byte that changes becomes a space. */
  ghost predicate Blanked(raw: string, i: nat, out: string) {
    i + |out| == |raw| && forall k :: 0 <= k < |out| ==>
      (out[k] == raw[i + k] || out[k] == ' ') && (out[k] == '\n' <==> raw[i + k] == '\n')
  }

  lemma {:induction false} StripOnlyBlanks(raw: string, i: nat)
    requires i <= |raw|
    ensures var r := Render(raw, i); r.Some? ==> Blanked(raw, i, r.value)
    decreases |raw| - i
  {
    if i == |raw| || Render(raw, i).None? { return; }
    PieceBounds(raw, i);
    var p := PieceAt(raw, i);
    StripOnlyBlanks(raw, p.end);
    var rest := Render(raw, p.end).value;
    var head := if p.Comment? then Blanks(raw[i..p.end]) else raw[i..p.end];
    forall k | 0 <= k < |head| + |rest|
      ensures var o := (head + rest)[k]; (o == raw[i + k] || o == ' ') && (o == '\n' <==> raw[i + k] == '\n')
    {
      if k >= |head| { assert (head + rest)[k] == rest[k - |head|]; }
    }
  }

  /** No piece from i on is a comment, and none is malformed. */
  ghost predicate CommentFree(raw: string, i: nat)
    decreases |raw| - i
  {
    i >= |raw| || (var p := PieceAt(raw, i); p.Text? && i < p.end <= |raw| && CommentFree(raw, p.end))
  }

  /** Stripping leaves a text alone exactly when it has no comments to strip. */
  lemma {:induction false} UnchangedIffCommentFree(raw: string, i: nat)
    requires i <= |raw|
    ensures Render(raw, i) == Some(raw[i..]) <==> CommentFree(raw, i)
    decreases |raw| - i
  {
    if i == |raw| { return; }
    PieceBounds(raw, i);
    var p := PieceAt(raw, i);
    if p.Malformed? { return; }
    UnchangedIffCommentFree(raw, p.end);
    var rest := Render(raw, p.end);
    if rest.None? { return; }
    assert raw[i..] == raw[i..p.end] + raw[p.end..];
    if p.Comment? {
      assert Render(raw, i).value[0] == ' ' && raw[i..][0] == '/';
    } else {
      assert Render(raw, i) == Some(raw[i..p.end] + rest.value);
      assert (raw[i..p.end] + rest.value)[p.end - i..] == rest.value;
    }
  }

  // ---- scanning the output again ------------------------------------------------------

  /** `out` agrees with `raw` from i on, except where it holds a blank. */
  ghost predicate Alike(raw: string, out: string, i: nat) {
    |out| == |raw| && forall k :: i <= k < |raw| ==> out[k] == raw[k] || out[k] == ' '
  }

  lemma {:induction false} SamePlainEnd(raw: string, out: string, i: nat, e: nat)
    requires |out| == |raw| && PlainEnd(raw, i) == Closed(e)
    requires forall k :: i <= k < e && k < |raw| ==> out[k] == raw[k]
    ensures PlainEnd(out, i) == Closed(e)
    decreases |raw| - i
  {
    PlainEndBounds(raw, i);
    if raw[i] == '\\' { PlainEndBounds(raw, i + 2); SamePlainEnd(raw, out, i + 2, e); }
    else if raw[i] != '"' { SamePlainEnd(raw, out, i + 1, e); }
  }

  lemma {:induction false} SameRawEnd(raw: string, out: string, i: nat, hashes: nat, e: nat)
    requires |out| == |raw| && RawEnd(raw, i, hashes) == Closed(e)
    requires forall k :: i <= k < e && k < |raw| ==> out[k] == raw[k]
    ensures RawEnd(out, i, hashes) == Closed(e)
    decreases |raw| - i
  {
    RawEndBounds(raw, i, hashes);
    if RawCloses(raw, i, hashes) { return; }
    RawEndBounds(raw, i + 1, hashes);
    SameRawEnd(raw, out, i + 1, hashes, e);
  }

  lemma {:induction false} SameHashes(raw: string, out: string, i: nat)
    requires |out| == |raw| && i <= |raw| && forall k :: i <= k <= i + Hashes(raw, i) && k < |raw| ==> out[k] == raw[k]
    ensures Hashes(out, i) == Hashes(raw, i)
    decreases |raw| - i
  {
    if i < |raw| && raw[i] == '#' { SameHashes(raw, out, i + 1); }
  }

  /** A literal that was copied is scanned as the same literal. */
  lemma SameLiteral(raw: string, out: string, i: nat, e: nat)
    requires Alike(raw, out, i) && LiteralAt(raw, i) == Closed(e)
    requires forall k :: i <= k < e && k < |raw| ==> out[k] == raw[k]
    ensures LiteralAt(out, i) == Closed(e)
  {
    LiteralBounds(raw, i);
    if raw[i] == '"' {
      SamePlainEnd(raw, out, i + 1, e);
    } else {
      var h := Hashes(raw, i);
      HashesBounds(raw, i);
      RawEndBounds(raw, i + h + 1, h);
      SameHashes(raw, out, i);
      SameRawEnd(raw, out, i + h + 1, h, e);
    }
  }

  lemma {:induction false} FewerHashes(raw: string, out: string, i: nat)
    requires Alike(raw, out, i) && i <= |raw|
    ensures Hashes(out, i) <= Hashes(raw, i)
    decreases |raw| - i
  {
    if i < |raw| && out[i] == '#' { FewerHashes(raw, out, i + 1); }
  }

  /** A byte of code that was copied is still code: blanking what follows opens no literal or comment. */
  lemma SameCode(raw: string, out: string, i: nat)
    requires Alike(raw, out, i) && i < |raw| && PieceAt(raw, i) == Text(i + 1) && out[i] == raw[i]
    ensures PieceAt(out, i) == Text(i + 1)
  {
    LiteralBounds(raw, i);
    assert LiteralAt(raw, i) == NoLiteral;
    if raw[i] == '"' { PlainEndBounds(raw, i + 1); }
    if raw[i] == '#' {
      HashesBounds(raw, i);
      HashesBounds(out, i);
      FewerHashes(raw, out, i);
      RawEndBounds(raw, i + Hashes(raw, i) + 1, Hashes(raw, i));
      var q := i + Hashes(out, i);
      assert q < |raw| ==> out[q] != '"';
    }
  }

  /** A run of blanks is copied as it is. */
  lemma {:induction false} BlanksStay(out: string, i: nat, e: nat)
    requires i <= e <= |out| && (forall k :: i <= k < e ==> out[k] == ' ' || out[k] == '\n')
    requires CommentFree(out, e)
    ensures CommentFree(out, i)
    decreases e - i
  {
    if i < e {
      BlanksStay(out, i + 1, e);
      assert PieceAt(out, i) == Text(i + 1);
    }
  }

  lemma {:induction false} StrippedIsCommentFree(raw: string, out: string, i: nat)
    requires i <= |raw| == |out| && Alike(raw, out, i) && Render(raw, i) == Some(out[i..])
    ensures CommentFree(out, i)
    decreases |raw| - i
  {
    if i == |raw| { return; }
    PieceBounds(raw, i);
    var p := PieceAt(raw, i);
    var head := if p.Comment? then Blanks(raw[i..p.end]) else raw[i..p.end];
    var rest := Render(raw, p.end).value;
    assert out[i..] == head + rest;
    assert out[p.end..] == out[i..][p.end - i..] == rest;
    StrippedIsCommentFree(raw, out, p.end);
    assert forall k :: i <= k < p.end ==> out[k] == out[i..][k - i] == head[k - i];
    if p.Comment? {
      BlanksStay(out, i, p.end);
    } else if LiteralAt(raw, i).Closed? {
      SameLiteral(raw, out, i, p.end);
    } else {
      SameCode(raw, out, i);
    }
  }

  /**
   * Stripping is idempotent: when it succeeds, its output has the input's length and newlines, differs
   * from it only by spaces, contains no comment, and strips to itself.
   */
  lemma StripIsIdempotent(raw: string)
    ensures var r := Render(raw, 0);
      r.Some? ==> Blanked(raw, 0, r.value) && CommentFree(r.value, 0) && Render(r.value, 0) == r
  {
    var r := Render(raw, 0);
    if r.None? { return; }
    var out := r.value;
    StripOnlyBlanks(raw, 0);
    assert out[0..] == out;
    StrippedIsCommentFree(raw, out, 0);
    UnchangedIffCommentFree(out, 0);
  }
}
