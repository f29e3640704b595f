/**
 * Swift source as the manifest scanner means it, stated as a grammar and not as a scan: code bytes, string
 * literals with escapes or with hashes, line comments, and block comments that nest.
 */
module SwiftGrammar {
  import opened Wrappers
  import opened SwiftScanner

  // ---- the grammar -----------------------------------------------------------------

  /** One character of an ordinary literal: as it is, or behind a backslash. */
  datatype Char = Bare(c: char) | Escaped(c: char)

  /** What is between the delimiters of a block comment: bytes and whole comments. */
  datatype Body = Done | Byte(c: char, rest: Body) | Nested(inner: Body, rest: Body)

  datatype Token =
    | Code(c: char)
    | Plain(chars: seq<Char>)
    | RawString(hashes: nat, content: string)
    | Line(text: string)
    | Block(body: Body)

  function CharText(x: Char): string { if x.Bare? then [x.c] else ['\\', x.c] }
  function CharsText(xs: seq<Char>): string { if xs == [] then "" else CharText(xs[0]) + CharsText(xs[1..]) }

  function Sharps(n: nat): string { seq(n, _ => '#') }

  const Opener: string := ['/', '*']
  const Closer: string := ['*', '/']

  function BodyText(b: Body): string {
    match b
    case Done => ""
    case Byte(c, rest) => [c] + BodyText(rest)
    case Nested(inner, rest) => Opener + (BodyText(inner) + (Closer + BodyText(rest)))
  }

  function TokenText(t: Token): string {
    match t
    case Code(c) => [c]
    case Plain(xs) => ['"'] + (CharsText(xs) + ['"'])
    case RawString(n, content) => Sharps(n) + (['"'] + (content + (['"'] + Sharps(n))))
    case Line(text) => ['/', '/'] + text
    case Block(b) => Opener + (BodyText(b) + (Closer + ""))
  }

  /** The byte a body's text starts with, if "*" follows it. */
  function First(b: Body): char {
    match b
    case Done => '*'
    case Byte(c, _) => c
    case Nested(_, _) => '/'
  }

  /** No byte of the body forms a delimiter with what comes after it. */
  predicate BodyOk(b: Body) {
    match b
    case Done => true
    case Byte(c, rest) => !(c == '/' && First(rest) == '*') && !(c == '*' && First(rest) == '/') && BodyOk(rest)
    case Nested(inner, rest) => BodyOk(inner) && BodyOk(rest)
  }

  predicate CharOk(x: Char) { x.Bare? ==> x.c != '"' && x.c != '\\' }
  predicate CharsOk(xs: seq<Char>) { forall i :: 0 <= i < |xs| ==> CharOk(xs[i]) }

  predicate StartsWith(s: string, c: char) { s != "" && s[0] == c }

  /** A run of hashes, perhaps empty, and a quote. */
  predicate HashesThenQuote(s: string) { s != "" && (s[0] == '"' || (s[0] == '#' && HashesThenQuote(s[1..]))) }

  /** Nowhere inside does a quote come with that many hashes after it. */
  predicate NeverCloses(body: string, hashes: nat) { forall j :: 0 <= j < |body| ==> !RawCloses(body, j, hashes) }

  /** The token can be followed by this text without being read as another one. */
  predicate Fits(t: Token, rest: string) {
    match t
    case Code(c) =>
      && c != '"' && !(c == '/' && (StartsWith(rest, '/') || StartsWith(rest, '*')))
      && !(c == '#' && HashesThenQuote(rest))
    case Plain(xs) => CharsOk(xs) && (xs == [] ==> !StartsWith(rest, '"'))
    case RawString(n, body) =>
      n > 0 && NeverCloses(body, n) && !(StartsWith(body, '"') && (|body| == 1 || body[1] == '"'))
    case Line(text) => '\n' !in text && (rest == "" || StartsWith(rest, '\n'))
    case Block(b) => BodyOk(b)
  }

  predicate IsComment(t: Token) { t.Line? || t.Block? }

  /** A kind of token: how it is written, what may follow it, and which of them are comments. */
  datatype Lexicon<!T> = Lexicon(text: T -> string, fits: (T, string) -> bool, comment: T -> bool)

  const Swift: Lexicon<Token> := Lexicon(TokenText, Fits, IsComment)

  /** A whole source: tokens one after the other. */
  datatype Source<T> = End | Then(t: T, rest: Source<T>)

  function TextOf<T>(lx: Lexicon<T>, s: Source<T>): string { if s.End? then "" else lx.text(s.t) + TextOf(lx, s.rest) }

  predicate SourceOk<T>(lx: Lexicon<T>, s: Source<T>) {
    s.Then? ==> lx.fits(s.t, TextOf(lx, s.rest)) && SourceOk(lx, s.rest)
  }

  /** What is left of a source: a comment is blanked, its newlines kept. */
  function Stripped<T>(lx: Lexicon<T>, s: Source<T>): string {
    if s.End? then "" else (if lx.comment(s.t) then Blanks(lx.text(s.t)) else lx.text(s.t)) + Stripped(lx, s.rest)
  }

  // ---- texts inside texts ---------------------------------------------------------------

  /** The text reads s at position i. */
  ghost predicate At(raw: string, i: nat, s: string) {
    i + |s| <= |raw| && forall k :: 0 <= k < |s| ==> raw[i + k] == s[k]
  }

  lemma AtSplit(raw: string, i: nat, a: string, b: string)
    requires At(raw, i, a + b)
    ensures At(raw, i, a) && At(raw, i + |a|, b)
  {
    forall k | 0 <= k < |a| ensures raw[i + k] == a[k] { assert (a + b)[k] == a[k]; }
    forall k | 0 <= k < |b| ensures raw[i + |a| + k] == b[k] { assert (a + b)[|a| + k] == b[k]; }
  }

  lemma AtSlice(raw: string, i: nat, s: string)
    ensures At(raw, i, s) <==> i + |s| <= |raw| && raw[i..i + |s|] == s
  {}

  lemma AtTwo(raw: string, i: nat, a: char, b: char)
    requires At(raw, i, [a, b])
    ensures Starts(raw, i, a, b)
  {
    assert [a, b][0] == a && [a, b][1] == b;
  }

  lemma AtOne(raw: string, i: nat, a: char)
    requires At(raw, i, [a])
    ensures i < |raw| && raw[i] == a
  {
    assert [a][0] == a;
  }

  // ---- ordinary literals ------------------------------------------------------------------

  lemma {:induction false} CharsAreRead(raw: string, i: nat, xs: seq<Char>)
    requires CharsOk(xs) && At(raw, i, CharsText(xs)) && At(raw, i + |CharsText(xs)|, ['"'])
    ensures PlainEnd(raw, i) == Closed(i + |CharsText(xs)| + 1)
    decreases |xs|
  {
    if xs == [] {
      AtOne(raw, i, '"');
    } else {
      AtSplit(raw, i, CharText(xs[0]), CharsText(xs[1..]));
      CharIsRead(raw, i, xs[0]);
      CharsAreRead(raw, i + |CharText(xs[0])|, xs[1..]);
    }
  }

  lemma CharIsRead(raw: string, i: nat, x: Char)
    requires CharOk(x) && At(raw, i, CharText(x))
    ensures PlainEnd(raw, i) == PlainEnd(raw, i + |CharText(x)|)
  {
    if x.Bare? { AtOne(raw, i, x.c); } else { AtTwo(raw, i, '\\', x.c); }
  }

  /** Every literal the scanner closes is made of such characters. */
  lemma {:induction false} CharsOf(raw: string, i: nat) returns (xs: seq<Char>)
    requires PlainEnd(raw, i).Closed?
    ensures CharsOk(xs) && i < PlainEnd(raw, i).end <= |raw|
    ensures raw[i..PlainEnd(raw, i).end - 1] == CharsText(xs) && raw[PlainEnd(raw, i).end - 1] == '"'
    decreases |raw| - i
  {
    PlainEndBounds(raw, i);
    var e := PlainEnd(raw, i).end;
    if raw[i] == '"' {
      xs := [];
    } else {
      var j := if raw[i] == '\\' then i + 2 else i + 1;
      PlainEndBounds(raw, j);
      var ys := CharsOf(raw, j);
      var x := if raw[i] == '\\' then Escaped(raw[i + 1]) else Bare(raw[i]);
      xs := [x] + ys;
      assert xs[1..] == ys;
      assert raw[i..j] == CharText(x);
      TwoSlices(raw, i, j, e - 1);
    }
  }

  lemma TwoSlices(raw: string, a: nat, b: nat, c: nat)
    requires a <= b <= c <= |raw|
    ensures raw[a..c] == raw[a..b] + raw[b..c]
  {}

  // ---- raw literals --------------------------------------------------------------------------

  lemma {:induction false} SharpsAreCounted(raw: string, i: nat, n: nat)
    requires At(raw, i, Sharps(n)) && (i + n < |raw| ==> raw[i + n] != '#')
    ensures Hashes(raw, i) == n
    decreases n
  {
    if n > 0 {
      assert raw[i] == Sharps(n)[0];
      var rest := Sharps(n - 1);
      forall k | 0 <= k < |rest| ensures raw[i + 1 + k] == rest[k] { assert raw[i + (k + 1)] == Sharps(n)[k + 1]; }
      SharpsAreCounted(raw, i + 1, n - 1);
    }
  }

  lemma {:induction false} RawBodyIsRead(raw: string, i: nat, k: nat, body: string, n: nat)
    requires n > 0 && NeverCloses(body, n) && At(raw, i, body) && RawCloses(raw, i + |body|, n) && k <= |body|
    ensures RawEnd(raw, i + k, n) == Closed(i + |body| + 1 + n)
    decreases |body| - k
  {
    if k < |body| {
      BodyQuoteStaysOpen(raw, i, k, body, n);
      RawBodyIsRead(raw, i, k + 1, body, n);
    }
  }

  lemma BodyQuoteStaysOpen(raw: string, i: nat, k: nat, body: string, n: nat)
    requires n > 0 && NeverCloses(body, n) && At(raw, i, body) && RawCloses(raw, i + |body|, n) && k < |body|
    ensures !RawCloses(raw, i + k, n)
  {
    assert !RawCloses(body, k, n) && raw[i + k] == body[k];
    if k + 1 + n <= |body| {
      if AllHashes(raw, i + k + 1, n) {
        forall j | k + 1 <= j < k + 1 + n ensures body[j] == '#' { assert raw[i + j] == body[j]; }
      }
    } else {
      assert raw[i + |body|] == '"';
    }
  }

  /** Where a raw literal is closed, it is not closed before. */
  lemma {:induction false} RawBodyOf(raw: string, i: nat, n: nat)
    requires RawEnd(raw, i, n).Closed?
    ensures var e := RawEnd(raw, i, n).end; i + 1 + n <= e <= |raw|
    ensures var q := RawEnd(raw, i, n).end - 1 - n; RawCloses(raw, q, n) && forall j :: i <= j < q ==> !RawCloses(raw, j, n)
    decreases |raw| - i
  {
    if !RawCloses(raw, i, n) { RawBodyOf(raw, i + 1, n); }
  }

  // ---- block comments --------------------------------------------------------------------------

  /** Inside a comment a body is walked through without a change of depth. */
  lemma {:induction false} BodyIsWalked(raw: string, i: nat, b: Body, depth: nat)
    requires BodyOk(b) && depth > 0 && At(raw, i, BodyText(b)) && Starts(raw, i + |BodyText(b)|, '*', '/')
    ensures BlockEnd(raw, i, depth) == BlockEnd(raw, i + |BodyText(b)|, depth)
    decreases b
  {
    match b
    case Done =>
    case Byte(c, next) =>
      AtSplit(raw, i, [c], BodyText(next));
      AtOne(raw, i, c);
      NextIsFirst(raw, i + 1, next);
      BodyIsWalked(raw, i + 1, next, depth);
    case Nested(inner, next) =>
      var j := i + 2 + |BodyText(inner)|;
      NestedParts(raw, i, BodyText(inner), BodyText(next));
      BodyIsWalked(raw, i + 2, inner, depth + 1);
      BodyIsWalked(raw, j + 2, next, depth);
  }

  lemma NestedParts(raw: string, i: nat, a: string, n: string)
    requires At(raw, i, Opener + (a + (Closer + n)))
    ensures Starts(raw, i, '/', '*') && At(raw, i + 2, a)
    ensures Starts(raw, i + 2 + |a|, '*', '/') && At(raw, i + 2 + |a| + 2, n)
  {
    AtSplit(raw, i, Opener, a + (Closer + n));
    AtTwo(raw, i, '/', '*');
    AtSplit(raw, i + 2, a, Closer + n);
    AtSplit(raw, i + 2 + |a|, Closer, n);
    AtTwo(raw, i + 2 + |a|, '*', '/');
  }

  lemma NextIsFirst(raw: string, i: nat, b: Body)
    requires At(raw, i, BodyText(b)) && Starts(raw, i + |BodyText(b)|, '*', '/')
    ensures i < |raw| && raw[i] == First(b)
  {
    match b
    case Done =>
    case Byte(c, next) => AtSplit(raw, i, [c], BodyText(next)); AtOne(raw, i, c);
    case Nested(inner, next) => NestedParts(raw, i, BodyText(inner), BodyText(next));
  }

  lemma ClosesHere(raw: string, j: nat)
    requires Starts(raw, j, '*', '/')
    ensures BlockEnd(raw, j, 1) == Some(j + 2)
  {
    assert BlockEnd(raw, j, 1) == BlockEnd(raw, j + 2, 0);
  }

  lemma BlockCloses(raw: string, i: nat, b: Body)
    requires BodyOk(b) && At(raw, i, BodyText(b)) && Starts(raw, i + |BodyText(b)|, '*', '/')
    ensures BlockEnd(raw, i, 1) == Some(i + |BodyText(b)| + 2)
  {
    BodyIsWalked(raw, i, b, 1);
    ClosesHere(raw, i + |BodyText(b)|);
  }

  lemma BlockPiece(raw: string, i: nat, e: nat)
    requires Starts(raw, i, '/', '*') && BlockEnd(raw, i + 2, 1) == Some(e)
    ensures PieceAt(raw, i) == Comment(e)
  {}

  lemma BlockIsRead(raw: string, i: nat, b: Body)
    requires BodyOk(b) && At(raw, i, TokenText(Block(b)))
    ensures PieceAt(raw, i) == PieceFor(Block(b), i)
  {
    var text := BodyText(b);
    NestedParts(raw, i, text, "");
    BlockCloses(raw, i + 2, b);
    BlockPiece(raw, i, i + 2 + |text| + 2);
  }

  /** What closes one level more closes one level less. */
  lemma {:induction false} ShallowerToo(raw: string, i: nat, d: nat)
    requires i <= |raw| && BlockEnd(raw, i, d + 1).Some?
    ensures BlockEnd(raw, i, d).Some?
    decreases |raw| - i
  {
    if d == 0 { return; }
    if Starts(raw, i, '/', '*') { ShallowerToo(raw, i + 2, d + 1); }
    else if Starts(raw, i, '*', '/') { ShallowerToo(raw, i + 2, d - 1); }
    else { ShallowerToo(raw, i + 1, d); }
  }

  /** ... and the last level closes from there. */
  lemma {:induction false} DeeperByOne(raw: string, i: nat, d: nat)
    requires i <= |raw| && d > 0 && BlockEnd(raw, i, d).Some?
    ensures i <= BlockEnd(raw, i, d).value <= |raw|
    ensures BlockEnd(raw, i, d + 1) == BlockEnd(raw, BlockEnd(raw, i, d).value, 1)
    decreases |raw| - i
  {
    BlockEndBounds(raw, i, d);
    if Starts(raw, i, '/', '*') { DeeperByOne(raw, i + 2, d + 1); }
    else if Starts(raw, i, '*', '/') { if d > 1 { DeeperByOne(raw, i + 2, d - 1); } }
    else { DeeperByOne(raw, i + 1, d); }
  }

  /** The body's text is at i, and the mark that closes it ends at e. */
  ghost predicate IsBody(raw: string, i: nat, b: Body, e: nat) {
    BodyOk(b) && e == i + |BodyText(b)| + 2 && At(raw, i, BodyText(b)) && Starts(raw, i + |BodyText(b)|, '*', '/')
  }

  lemma ByteIsBody(raw: string, i: nat, next: Body, e: nat)
    requires i < |raw| && !Starts(raw, i, '/', '*') && !Starts(raw, i, '*', '/') && IsBody(raw, i + 1, next, e)
    ensures IsBody(raw, i, Byte(raw[i], next), e)
  {
    NextIsFirst(raw, i + 1, next);
    AtJoin(raw, i, [raw[i]], BodyText(next));
  }

  lemma NestedIsBody(raw: string, i: nat, inner: Body, f: nat, next: Body, e: nat)
    requires Starts(raw, i, '/', '*') && IsBody(raw, i + 2, inner, f) && IsBody(raw, f, next, e)
    ensures IsBody(raw, i, Nested(inner, next), e)
  {
    NestedJoins(raw, i, BodyText(inner), BodyText(next));
  }

  lemma InnerCloses(raw: string, i: nat)
    requires Starts(raw, i, '/', '*') && BlockEnd(raw, i, 1).Some?
    ensures BlockEnd(raw, i + 2, 1).Some? && i + 2 <= BlockEnd(raw, i + 2, 1).value <= |raw|
    ensures BlockEnd(raw, i, 1) == BlockEnd(raw, BlockEnd(raw, i + 2, 1).value, 1)
  {
    ShallowerToo(raw, i + 2, 1);
    DeeperByOne(raw, i + 2, 1);
  }

  /** Every comment the scanner closes is such a tree. */
  lemma {:induction false} BodyOf(raw: string, i: nat) returns (b: Body)
    requires i <= |raw| && BlockEnd(raw, i, 1).Some?
    ensures IsBody(raw, i, b, BlockEnd(raw, i, 1).value)
    decreases |raw| - i
  {
    if Starts(raw, i, '/', '*') {
      InnerCloses(raw, i);
      var f := BlockEnd(raw, i + 2, 1).value;
      var inner := BodyOf(raw, i + 2);
      var next := BodyOf(raw, f);
      b := Nested(inner, next);
      NestedIsBody(raw, i, inner, f, next, BlockEnd(raw, i, 1).value);
    } else if Starts(raw, i, '*', '/') {
      ClosesHere(raw, i);
      b := Done;
    } else {
      var next := BodyOf(raw, i + 1);
      b := Byte(raw[i], next);
      ByteIsBody(raw, i, next, BlockEnd(raw, i, 1).value);
    }
  }

  lemma AtJoin(raw: string, i: nat, a: string, b: string)
    requires At(raw, i, a) && At(raw, i + |a|, b)
    ensures At(raw, i, a + b)
  {
    forall k | 0 <= k < |a + b| ensures raw[i + k] == (a + b)[k] {
      if k >= |a| { assert raw[i + |a| + (k - |a|)] == b[k - |a|]; }
    }
  }

  lemma NestedJoins(raw: string, i: nat, a: string, n: string)
    requires Starts(raw, i, '/', '*') && At(raw, i + 2, a) && Starts(raw, i + 2 + |a|, '*', '/') && At(raw, i + 2 + |a| + 2, n)
    ensures At(raw, i, Opener + (a + (Closer + n)))
  {
    AtJoin(raw, i + 2 + |a|, Closer, n);
    AtJoin(raw, i + 2, a, Closer + n);
    AtJoin(raw, i, Opener, a + (Closer + n));
  }

  // ---- one token -------------------------------------------------------------------------------

  lemma {:induction false} HashesLeadToQuote(raw: string, i: nat)
    requires i <= |raw|
    ensures var q := i + Hashes(raw, i); HashesThenQuote(raw[i..]) <==> q < |raw| && raw[q] == '"'
    decreases |raw| - i
  {
    if i < |raw| && raw[i] == '#' {
      HashesLeadToQuote(raw, i + 1);
      assert raw[i..][1..] == raw[i + 1..];
    }
  }

  /** The piece the scanner must find for a token at i. */
  function PieceFor(t: Token, i: nat): Piece {
    if IsComment(t) then Comment(i + |TokenText(t)|) else SwiftScanner.Text(i + |TokenText(t)|)
  }

  /** The token stands at i, and what comes after it leaves it alone. */
  ghost predicate Stands(raw: string, i: nat, t: Token) {
    At(raw, i, TokenText(t)) && Fits(t, raw[i + |TokenText(t)|..])
  }

  lemma CodeIsRead(raw: string, i: nat, c: char)
    requires Stands(raw, i, Code(c))
    ensures PieceAt(raw, i) == PieceFor(Code(c), i)
  {
    AtOne(raw, i, c);
    if c == '#' {
      HashesLeadToQuote(raw, i + 1);
      assert Hashes(raw, i) == 1 + Hashes(raw, i + 1);
    }
  }

  lemma PlainIsRead(raw: string, i: nat, xs: seq<Char>)
    requires Stands(raw, i, Plain(xs))
    ensures PieceAt(raw, i) == PieceFor(Plain(xs), i)
  {
    AtSplit(raw, i, ['"'], CharsText(xs) + ['"']);
    AtOne(raw, i, '"');
    AtSplit(raw, i + 1, CharsText(xs), ['"']);
    CharsAreRead(raw, i + 1, xs);
    NotTriple(raw, i, xs);
  }

  lemma NotTriple(raw: string, i: nat, xs: seq<Char>)
    requires CharsOk(xs) && At(raw, i + 1, CharsText(xs)) && At(raw, i + 1 + |CharsText(xs)|, ['"'])
    requires xs == [] ==> !StartsWith(raw[i + 2..], '"')
    ensures !TripleQuote(raw, i)
  {
    if xs != [] {
      AtSplit(raw, i + 1, CharText(xs[0]), CharsText(xs[1..]));
      assert raw[i + 1 + 0] == CharText(xs[0])[0];
    }
  }

  lemma RawIsRead(raw: string, i: nat, n: nat, content: string)
    requires Stands(raw, i, RawString(n, content))
    ensures PieceAt(raw, i) == PieceFor(RawString(n, content), i)
  {
    RawParts(raw, i, n, content);
    RawFound(raw, i, n, content);
  }

  lemma RawFound(raw: string, i: nat, n: nat, content: string)
    requires n > 0 && NeverCloses(content, n) && !(StartsWith(content, '"') && (|content| == 1 || content[1] == '"'))
    requires At(raw, i, Sharps(n)) && i + n < |raw| && raw[i] == '#' && raw[i + n] == '"'
    requires At(raw, i + n + 1, content) && RawCloses(raw, i + n + 1 + |content|, n)
    ensures PieceAt(raw, i) == SwiftScanner.Text(i + n + 1 + |content| + 1 + n)
  {
    assert Hashes(raw, i) == n by { SharpsAreCounted(raw, i, n); }
    assert !TripleQuote(raw, i + n) by { RawNotTriple(raw, i + n, content, n); }
    var e := i + n + 1 + |content| + 1 + n;
    assert RawEnd(raw, i + n + 1, n) == Closed(e) by { RawBodyIsRead(raw, i + n + 1, 0, content, n); }
    RawPiece(raw, i, n, e);
  }

  lemma RawParts(raw: string, i: nat, n: nat, content: string)
    requires n > 0 && At(raw, i, Sharps(n) + (['"'] + (content + (['"'] + Sharps(n)))))
    ensures At(raw, i, Sharps(n)) && i + n < |raw| && raw[i] == '#' && raw[i + n] == '"'
    ensures At(raw, i + n + 1, content) && RawCloses(raw, i + n + 1 + |content|, n)
  {
    AtSplit(raw, i, Sharps(n), ['"'] + (content + (['"'] + Sharps(n))));
    assert raw[i + 0] == Sharps(n)[0];
    AtSplit(raw, i + n, ['"'], content + (['"'] + Sharps(n)));
    AtOne(raw, i + n, '"');
    AtSplit(raw, i + n + 1, content, ['"'] + Sharps(n));
    var q := i + n + 1 + |content|;
    AtSplit(raw, q, ['"'], Sharps(n));
    AtOne(raw, q, '"');
    forall j | q + 1 <= j < q + 1 + n ensures raw[j] == '#' { assert raw[q + 1 + (j - q - 1)] == Sharps(n)[j - q - 1]; }
  }

  lemma RawPiece(raw: string, i: nat, n: nat, e: nat)
    requires n > 0 && i + n < |raw| && raw[i] == '#' && raw[i + n] == '"' && Hashes(raw, i) == n && !TripleQuote(raw, i + n)
    requires RawEnd(raw, i + n + 1, n) == Closed(e)
    ensures PieceAt(raw, i) == SwiftScanner.Text(e)
  {}

  lemma RawNotTriple(raw: string, q: nat, content: string, n: nat)
    requires n > 0 && At(raw, q + 1, content) && RawCloses(raw, q + 1 + |content|, n)
    requires !(StartsWith(content, '"') && (|content| == 1 || content[1] == '"'))
    ensures !TripleQuote(raw, q)
  {
    if content == "" { assert raw[q + 2] == '#'; }
    else {
      assert raw[q + 1 + 0] == content[0];
      if |content| > 1 { assert raw[q + 1 + 1] == content[1]; }
    }
  }

  lemma {:induction false} LineRuns(raw: string, i: nat, e: nat)
    requires i <= e <= |raw| && (forall k :: i <= k < e ==> raw[k] != '\n') && (e < |raw| ==> raw[e] == '\n')
    ensures LineEnd(raw, i) == e
    decreases e - i
  {
    if i < e { LineRuns(raw, i + 1, e); }
  }

  lemma LinePiece(raw: string, i: nat, e: nat)
    requires Starts(raw, i, '/', '/') && LineEnd(raw, i) == e
    ensures PieceAt(raw, i) == Comment(e)
  {}

  lemma LineFound(raw: string, i: nat, text: string)
    requires Starts(raw, i, '/', '/') && At(raw, i + 2, text) && '\n' !in text
    requires var e := i + 2 + |text|; e < |raw| ==> raw[e] == '\n'
    ensures PieceAt(raw, i) == Comment(i + 2 + |text|)
  {
    var e := i + 2 + |text|;
    forall k | i <= k < e ensures raw[k] != '\n' {
      if k >= i + 2 { assert raw[i + 2 + (k - i - 2)] == text[k - i - 2] && text[k - i - 2] in text; }
    }
    LineRuns(raw, i, e);
    LinePiece(raw, i, e);
  }

  lemma LineIsRead(raw: string, i: nat, text: string)
    requires Stands(raw, i, Line(text))
    ensures PieceAt(raw, i) == PieceFor(Line(text), i)
  {
    AtSplit(raw, i, ['/', '/'], text);
    AtTwo(raw, i, '/', '/');
    LineFound(raw, i, text);
  }

  /** Wherever a token stands that its follower does not disturb, the scanner finds that token. */
  lemma TokenIsRead(raw: string, i: nat, t: Token)
    requires Stands(raw, i, t)
    ensures PieceAt(raw, i) == PieceFor(t, i)
  {
    match t
    case Code(c) => CodeIsRead(raw, i, c);
    case Plain(xs) => PlainIsRead(raw, i, xs);
    case RawString(n, content) => RawIsRead(raw, i, n, content);
    case Line(text) => LineIsRead(raw, i, text);
    case Block(b) => BlockIsRead(raw, i, b);
  }

  // ---- ... and there are no others --------------------------------------------------------------------

  lemma PlainOf(raw: string, i: nat) returns (t: Token)
    requires i < |raw| && raw[i] == '"' && LiteralAt(raw, i).Closed?
    ensures Stands(raw, i, t) && LiteralAt(raw, i).end == i + |TokenText(t)| && !IsComment(t)
  {
    var xs := CharsOf(raw, i + 1);
    var e := PlainEnd(raw, i + 1).end;
    t := Plain(xs);
    AtJoin(raw, i + 1, CharsText(xs), ['"']);
    AtJoin(raw, i, ['"'], CharsText(xs) + ['"']);
    assert StartsWith(raw[i + 2..], '"') <==> i + 2 < |raw| && raw[i + 2] == '"';
  }

  lemma RawOf(raw: string, i: nat) returns (t: Token)
    requires i < |raw| && raw[i] == '#' && LiteralAt(raw, i).Closed?
    ensures Stands(raw, i, t) && LiteralAt(raw, i).end == i + |TokenText(t)| && !IsComment(t)
  {
    var n := Hashes(raw, i);
    HashesBounds(raw, i);
    RawBodyOf(raw, i + n + 1, n);
    var q := RawEnd(raw, i + n + 1, n).end - 1 - n;
    var content := raw[i + n + 1..q];
    t := RawString(n, content);
    RawJoins(raw, i, n, content);
    ContentStaysOpen(raw, i + n + 1, q, n);
    RawStartsFit(raw, i + n, q, content);
  }

  lemma RawJoins(raw: string, i: nat, n: nat, content: string)
    requires AllHashes(raw, i, n) && i + n < |raw| && raw[i + n] == '"' && At(raw, i + n + 1, content)
    requires RawCloses(raw, i + n + 1 + |content|, n)
    ensures At(raw, i, Sharps(n) + (['"'] + (content + (['"'] + Sharps(n)))))
  {
    var q := i + n + 1 + |content|;
    AtJoin(raw, q, ['"'], Sharps(n));
    AtJoin(raw, i + n + 1, content, ['"'] + Sharps(n));
    AtJoin(raw, i + n, ['"'], content + (['"'] + Sharps(n)));
    AtJoin(raw, i, Sharps(n), ['"'] + (content + (['"'] + Sharps(n))));
  }

  lemma ContentStaysOpen(raw: string, a: nat, q: nat, n: nat)
    requires a <= q <= |raw| && forall j :: a <= j < q ==> !RawCloses(raw, j, n)
    ensures NeverCloses(raw[a..q], n)
  {
    var content := raw[a..q];
    forall j | 0 <= j < |content| ensures !RawCloses(content, j, n) {
      assert !RawCloses(raw, a + j, n);
      if content[j] == '"' && AllHashes(content, j + 1, n) {
        forall k | a + j + 1 <= k < a + j + 1 + n ensures raw[k] == '#' { assert content[k - a] == '#'; }
      }
    }
  }

  lemma RawStartsFit(raw: string, p: nat, q: nat, content: string)
    requires p < q < |raw| && raw[p] == '"' && raw[q] == '"' && content == raw[p + 1..q] && !TripleQuote(raw, p)
    ensures !(StartsWith(content, '"') && (|content| == 1 || content[1] == '"'))
  {}

  lemma CommentOf(raw: string, i: nat) returns (t: Token)
    requires i < |raw| && PieceAt(raw, i).Comment?
    ensures Stands(raw, i, t) && PieceAt(raw, i) == PieceFor(t, i)
  {
    if Starts(raw, i, '/', '/') {
      LineEndBounds(raw, i);
      LineStops(raw, i);
      var e := LineEnd(raw, i);
      LinePast(raw, i);
      t := Line(raw[i + 2..e]);
      AtJoin(raw, i, ['/', '/'], raw[i + 2..e]);
    } else {
      var b := BodyOf(raw, i + 2);
      t := Block(b);
      NestedJoins(raw, i, BodyText(b), "");
    }
  }

  lemma {:induction false} LineStops(raw: string, i: nat)
    requires i <= |raw|
    ensures LineEnd(raw, i) <= |raw| && (LineEnd(raw, i) < |raw| ==> raw[LineEnd(raw, i)] == '\n')
    decreases |raw| - i
  {
    if i < |raw| && raw[i] != '\n' { LineStops(raw, i + 1); }
  }

  lemma LinePast(raw: string, i: nat)
    requires Starts(raw, i, '/', '/')
    ensures LineEnd(raw, i) >= i + 2
  {
    assert LineEnd(raw, i) == LineEnd(raw, i + 1) == LineEnd(raw, i + 2);
    LineEndBounds(raw, i + 2);
  }

  lemma CodeOf(raw: string, i: nat) returns (t: Token)
    requires i < |raw| && PieceAt(raw, i).Text? && LiteralAt(raw, i) == NoLiteral
    ensures Stands(raw, i, t) && PieceAt(raw, i) == PieceFor(t, i)
  {
    t := Code(raw[i]);
    var rest := raw[i + 1..];
    assert At(raw, i, TokenText(t));
    NoQuoteHere(raw, i);
    assert !(raw[i] == '/' && (StartsWith(rest, '/') || StartsWith(rest, '*')));
  }

  lemma NoQuoteHere(raw: string, i: nat)
    requires i < |raw| && LiteralAt(raw, i) == NoLiteral
    ensures raw[i] != '"' && !(raw[i] == '#' && HashesThenQuote(raw[i + 1..]))
  {
    PlainEndBounds(raw, i + 1);
    if raw[i] == '#' {
      var n := Hashes(raw, i);
      assert n == 1 + Hashes(raw, i + 1);
      HashesLeadToQuote(raw, i + 1);
      RawEndBounds(raw, i + n + 1, n);
    }
  }

  /** Whatever the scanner finds is a token that stands there. */
  lemma TokenOf(raw: string, i: nat) returns (t: Token)
    requires i < |raw| && !PieceAt(raw, i).Malformed?
    ensures Stands(raw, i, t) && PieceAt(raw, i) == PieceFor(t, i)
  {
    if LiteralAt(raw, i).Closed? {
      if raw[i] == '"' { t := PlainOf(raw, i); } else { t := RawOf(raw, i); }
    } else if PieceAt(raw, i).Comment? {
      t := CommentOf(raw, i);
    } else {
      t := CodeOf(raw, i);
    }
  }

  lemma TokenIsNotEmpty(t: Token)
    ensures TokenText(t) != ""
  {}

  // ---- whole texts --------------------------------------------------------------------------------

  /** The token is written at i, and what comes after it leaves it alone. */
  ghost predicate Reads<T>(lx: Lexicon<T>, raw: string, i: nat, t: T) {
    var e := i + |lx.text(t)|;
    i < e <= |raw| && raw[i..e] == lx.text(t) && lx.fits(t, raw[e..])
  }

  function PieceOf<T>(lx: Lexicon<T>, t: T, i: nat): Piece {
    if lx.comment(t) then Comment(i + |lx.text(t)|) else SwiftScanner.Text(i + |lx.text(t)|)
  }

  ghost predicate Found<T>(lx: Lexicon<T>, raw: string, i: nat, t: T) {
    Reads(lx, raw, i, t) ==> PieceAt(raw, i) == PieceOf(lx, t, i)
  }

  ghost predicate Covered<T(!new)>(lx: Lexicon<T>, raw: string, i: nat) {
    i < |raw| && !PieceAt(raw, i).Malformed? ==> exists t :: Reads(lx, raw, i, t)
  }

  /** The scanner finds every token that is there, and finds nothing else. */
  ghost predicate Scans<T(!new)>(lx: Lexicon<T>) {
    (forall t :: lx.text(t) != "") && (forall raw, i: nat, t :: Found(lx, raw, i, t)) && (forall raw, i: nat :: Covered(lx, raw, i))
  }

  lemma StripOne(raw: string, i: nat, e: nat, comment: bool, tail: string)
    requires i < e <= |raw| && PieceAt(raw, i) == (if comment then Comment(e) else SwiftScanner.Text(e))
    requires Render(raw, e) == Some(tail)
    ensures Render(raw, i) == Some((if comment then Blanks(raw[i..e]) else raw[i..e]) + tail)
  {}

  lemma Drops(raw: string, i: nat, a: string, b: string)
    requires i <= |raw| && raw[i..] == a + b
    ensures i + |a| <= |raw| && raw[i + |a|..] == b && raw[i..i + |a|] == a
  {
    assert raw[i..][|a|..] == b && raw[i..][..|a|] == a;
  }

  lemma StripFirst<T>(lx: Lexicon<T>, raw: string, i: nat, e: nat, t: T, tail: string)
    requires Found(lx, raw, i, t) && e == i + |lx.text(t)| && Reads(lx, raw, i, t) && Render(raw, e) == Some(tail)
    ensures Render(raw, i) == Some((if lx.comment(t) then Blanks(lx.text(t)) else lx.text(t)) + tail)
  {
    StripOne(raw, i, e, lx.comment(t), tail);
  }

  /** Every text of the grammar strips to itself with its comments blanked. */
  lemma {:induction false} SourceStrips<T(!new)>(lx: Lexicon<T>, raw: string, i: nat, s: Source<T>)
    requires Scans(lx) && SourceOk(lx, s) && i <= |raw| && raw[i..] == TextOf(lx, s)
    ensures Render(raw, i) == Some(Stripped(lx, s))
    decreases s
  {
    if s.Then? {
      var e := i + |lx.text(s.t)|;
      Drops(raw, i, lx.text(s.t), TextOf(lx, s.rest));
      SourceStrips(lx, raw, e, s.rest);
      assert Found(lx, raw, i, s.t);
      StripFirst(lx, raw, i, e, s.t, Stripped(lx, s.rest));
    }
  }

  /** Every text that can be stripped is a text of the grammar. */
  lemma {:induction false} SourceOf<T(!new)>(lx: Lexicon<T>, raw: string, i: nat) returns (s: Source<T>)
    requires Scans(lx) && i <= |raw| && Render(raw, i).Some?
    ensures SourceOk(lx, s) && TextOf(lx, s) == raw[i..]
    decreases |raw| - i
  {
    if i == |raw| { return End; }
    var t, e := FirstOf(lx, raw, i);
    var rest := SourceOf(lx, raw, e);
    s := Then(t, rest);
    RestOf(raw, i, e);
  }

  lemma FirstOf<T(!new)>(lx: Lexicon<T>, raw: string, i: nat) returns (t: T, e: nat)
    requires Scans(lx) && i < |raw| && Render(raw, i).Some?
    ensures Reads(lx, raw, i, t) && e == i + |lx.text(t)| && Render(raw, e).Some?
  {
    assert Covered(lx, raw, i);
    t :| Reads(lx, raw, i, t);
    e := i + |lx.text(t)|;
    assert Found(lx, raw, i, t);
  }

  lemma RestOf(raw: string, i: nat, e: nat)
    requires i <= e <= |raw|
    ensures raw[i..] == raw[i..e] + raw[e..]
  {}

  /**
   * Stripping, in terms of the grammar alone: it succeeds exactly on the grammar's texts, and what comes out is the
   * text with every comment, nested ones included, blanked.
   */
  lemma StripIsExact(raw: string)
    ensures Render(raw, 0).Some? <==> exists s :: SourceOk(Swift, s) && TextOf(Swift, s) == raw
    ensures forall s :: SourceOk(Swift, s) && TextOf(Swift, s) == raw ==> Render(raw, 0) == Some(Stripped(Swift, s))
  {
    SwiftScans();
    StripsExactly(Swift, raw);
  }

  lemma StripsExactly<T(!new)>(lx: Lexicon<T>, raw: string)
    requires Scans(lx)
    ensures Render(raw, 0).Some? <==> exists s :: SourceOk(lx, s) && TextOf(lx, s) == raw
    ensures forall s :: SourceOk(lx, s) && TextOf(lx, s) == raw ==> Render(raw, 0) == Some(Stripped(lx, s))
  {
    assert raw[0..] == raw;
    forall s | SourceOk(lx, s) && TextOf(lx, s) == raw ensures Render(raw, 0) == Some(Stripped(lx, s)) {
      SourceStrips(lx, raw, 0, s);
    }
    if Render(raw, 0).Some? { var s := SourceOf(lx, raw, 0); }
  }

  lemma ReadsIsStands(raw: string, i: nat, t: Token)
    ensures Reads(Swift, raw, i, t) <==> Stands(raw, i, t)
  {
    TokenIsNotEmpty(t);
    AtSlice(raw, i, TokenText(t));
  }

  lemma SwiftIsFound(raw: string, i: nat, t: Token)
    ensures Found(Swift, raw, i, t)
  {
    ReadsIsStands(raw, i, t);
    if Stands(raw, i, t) { TokenIsRead(raw, i, t); }
  }

  lemma SwiftCovers(raw: string, i: nat)
    ensures Covered(Swift, raw, i)
  {
    if i < |raw| && !PieceAt(raw, i).Malformed? {
      var t := TokenOf(raw, i);
      ReadsIsStands(raw, i, t);
    }
  }

  /** The scanner's tokens are Swift's. */
  lemma SwiftScans()
    ensures Scans(Swift)
  {
    forall raw, i: nat, t ensures Found(Swift, raw, i, t) { SwiftIsFound(raw, i, t); }
    forall raw, i: nat ensures Covered(Swift, raw, i) { SwiftCovers(raw, i); }
    forall t ensures Swift.text(t) != "" { TokenIsNotEmpty(t); }
  }
}
