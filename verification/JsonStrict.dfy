/**
 * Which texts of the lenient grammar are JSON in the sense of section 7 of RFC 8259, where a string holds
 * no bare control byte, and which frames the encoder writes are.
 */
module JsonStrict {
  import opened Wrappers
  import opened Decimals
  import opened JsonGrammar
  import opened WSFrame

  predicate IsControl(c: char) { c < ' ' }
  predicate NoControls(s: string) { forall i :: 0 <= i < |s| ==> !IsControl(s[i]) }

  predicate StrictPieces(ps: seq<Piece>) { forall i :: 0 <= i < |ps| ==> ps[i].Raw? ==> !IsControl(ps[i].c) }

  predicate Strict(v: Json) {
    match v
    case JString(ps) => StrictPieces(ps)
    case JArray(_, items) => StrictItems(items)
    case JObject(_, members) => StrictMembers(members)
    case _ => true
  }

  predicate StrictItems(i: Items) { i.Item? ==> Strict(i.value) && StrictItems(i.rest) }

  predicate StrictMembers(m: Members) { m.Member? ==> StrictPieces(m.name) && Strict(m.value) && StrictMembers(m.rest) }

  /** The texts the standard calls JSON values. */
  ghost predicate IsJson(text: string) { exists v :: ValueOk(v) && Strict(v) && Text(v) == text }

  // ---- reading a text byte by byte -----------------------------------------------------

  datatype Mode = Outside | Inside | Escaping

  /** Nothing is left once a control byte has been met inside a string. */
  function Read(m: Option<Mode>, c: char): Option<Mode> {
    match m
    case None => None
    case Some(Outside) => Some(if c == '"' then Inside else Outside)
    case Some(Inside) => if IsControl(c) then None else if c == '"' then Some(Outside) else if c == '\\' then Some(Escaping) else m
    case Some(Escaping) => if IsControl(c) then None else Some(Inside)
  }

  function ReadAll(m: Option<Mode>, s: string): Option<Mode>
    decreases |s|
  {
    if s == "" then m else ReadAll(Read(m, s[0]), s[1..])
  }

  lemma {:induction false} ReadSplits(m: Option<Mode>, a: string, b: string)
    ensures ReadAll(m, a + b) == ReadAll(ReadAll(m, a), b)
    decreases |a|
  {
    if a == "" {
      assert a + b == b;
    } else {
      assert (a + b)[0] == a[0] && (a + b)[1..] == a[1..] + b;
      ReadSplits(Read(m, a[0]), a[1..], b);
    }
  }

  lemma {:induction false} NothingAfter(s: string)
    ensures ReadAll(None, s) == None
  {
    if s != "" { NothingAfter(s[1..]); }
  }

  lemma ReadOne(m: Option<Mode>, c: char)
    ensures ReadAll(m, [c]) == Read(m, c)
  {
    var s := [c];
    assert s[1..] == "";
  }

  predicate Quoteless(s: string) { forall i :: 0 <= i < |s| ==> s[i] != '"' }

  lemma {:induction false} ReadQuoteless(s: string)
    requires Quoteless(s)
    ensures ReadAll(Some(Outside), s) == Some(Outside)
  {
    if s != "" { ReadQuoteless(s[1..]); }
  }

  // ---- strings ----------------------------------------------------------------------------

  lemma {:induction false} ReadHex(h: string)
    requires forall i :: 0 <= i < |h| ==> h[i] in "0123456789abcdefABCDEF"
    ensures ReadAll(Some(Inside), h) == Some(Inside)
  {
    if h != "" {
      HexIsPlain(h[0]);
      ReadHex(h[1..]);
    }
  }

  lemma HexIsPlain(c: char)
    requires c in "0123456789abcdefABCDEF"
    ensures !IsControl(c) && c != '"' && c != '\\'
  {}

  lemma EscapeIsPlain(c: char)
    requires c in "\"\\/bfnrt"
    ensures !IsControl(c)
  {}

  lemma ReadPiece(p: Piece)
    requires PieceOk(p)
    ensures ReadAll(Some(Inside), PieceText(p)) == if p.Raw? && IsControl(p.c) then None else Some(Inside)
  {
    match p
    case Raw(c) => ReadOne(Some(Inside), c);
    case Esc(c) => ReadEscape(c);
    case Unicode(h) => ReadUnicode(h);
  }

  lemma ReadEscape(c: char)
    requires c in "\"\\/bfnrt"
    ensures ReadAll(Some(Inside), ['\\', c]) == Some(Inside)
  {
    EscapeIsPlain(c);
    ReadOne(Some(Escaping), c);
    assert ['\\', c][1..] == [c];
  }

  lemma ReadUnicode(h: string)
    requires forall i :: 0 <= i < |h| ==> h[i] in "0123456789abcdefABCDEF"
    ensures ReadAll(Some(Inside), "\\u" + h) == Some(Inside)
  {
    ReadHex(h);
    ReadSplits(Some(Inside), "\\u", h);
    ReadUnicodeMark();
  }

  lemma ReadUnicodeMark()
    ensures ReadAll(Some(Inside), "\\u") == Some(Inside)
  {
    ReadOne(Some(Inside), '\\');
    ReadOne(Some(Escaping), 'u');
    ReadSplits(Some(Inside), "\\", "u");
    assert "\\" + "u" == "\\u";
  }

  lemma {:induction false} ReadPieces(ps: seq<Piece>)
    requires PiecesOk(ps)
    ensures ReadAll(Some(Inside), PiecesText(ps)) == if StrictPieces(ps) then Some(Inside) else None
  {
    if ps == [] { return; }
    var rest := PiecesText(ps[1..]);
    ReadPiece(ps[0]);
    ReadSplits(Some(Inside), PieceText(ps[0]), rest);
    if ps[0].Raw? && IsControl(ps[0].c) {
      NothingAfter(rest);
    } else {
      ReadPieces(ps[1..]);
      assert StrictPieces(ps) <==> StrictPieces(ps[1..]) by {
        if StrictPieces(ps[1..]) {
          forall i | 0 <= i < |ps| && ps[i].Raw? ensures !IsControl(ps[i].c) { if i > 0 { assert ps[1..][i - 1] == ps[i]; } }
        }
      }
    }
  }

  /** The mode after a text that starts and ends outside strings, if all of it is strict. */
  function After(strict: bool): Option<Mode> { if strict then Some(Outside) else None }

  lemma ReadQuoted(ps: seq<Piece>)
    requires PiecesOk(ps)
    ensures ReadAll(Some(Outside), Quoted(ps)) == After(StrictPieces(ps))
  {
    ReadPieces(ps);
    ReadOne(Some(Outside), '"');
    ReadSplits(Some(Outside), "\"", PiecesText(ps));
    ReadSplits(Some(Outside), "\"" + PiecesText(ps), "\"");
    ReadOne(Some(Inside), '"');
    NothingAfter("\"");
  }

  // ---- values --------------------------------------------------------------------------------

  lemma NumberIsQuoteless(n: Number)
    requires NumberOk(n)
    ensures Quoteless(NumberText(n))
  {
    assert Quoteless(n.whole) && Quoteless(n.frac);
    if n.exp.Exponent? {
      assert Quoteless(n.exp.digits) && Quoteless(n.exp.sign) && n.exp.e != '"';
    }
  }

  /** Text that reads in two parts, each from outside to outside. */
  lemma ReadBoth(a: string, sa: bool, b: string, sb: bool)
    requires ReadAll(Some(Outside), a) == After(sa) && ReadAll(Some(Outside), b) == After(sb)
    ensures ReadAll(Some(Outside), a + b) == After(sa && sb)
  {
    ReadSplits(Some(Outside), a, b);
    NothingAfter(b);
  }

  lemma ReadPlainThen(a: string, b: string, sb: bool)
    requires Quoteless(a) && ReadAll(Some(Outside), b) == After(sb)
    ensures ReadAll(Some(Outside), a + b) == After(sb)
  {
    ReadQuoteless(a);
    ReadBoth(a, true, b, sb);
  }

  /** A lenient value's text reads through exactly when the value is strict. */
  lemma {:induction false} ReadValue(v: Json)
    requires ValueOk(v)
    ensures ReadAll(Some(Outside), Text(v)) == After(Strict(v))
  {
    match v
    case JNumber(n) => NumberIsQuoteless(n); ReadQuoteless(NumberText(n));
    case JString(ps) => ReadQuoted(ps);
    case JArray(gap, items) =>
      var body := if items.NoItems? then gap else ItemsText(items);
      if items.NoItems? { ReadQuoteless(gap); } else { ReadItems(items); }
      ReadWrapped("[", body, "]", StrictItems(items));
    case JObject(gap, members) =>
      var body := if members.NoMembers? then gap else MembersText(members);
      if members.NoMembers? { ReadQuoteless(gap); } else { ReadMembers(members); }
      ReadWrapped("{", body, "}", StrictMembers(members));
    case JNull => ReadQuoteless("null");
    case JTrue => ReadQuoteless("true");
    case JFalse => ReadQuoteless("false");
  }

  lemma ReadWrapped(open: string, body: string, close: string, strict: bool)
    requires Quoteless(open) && Quoteless(close) && ReadAll(Some(Outside), body) == After(strict)
    ensures ReadAll(Some(Outside), open + body + close) == After(strict)
  {
    ReadPlainThen(open, body, strict);
    ReadQuoteless(close);
    ReadBoth(open + body, strict, close, true);
  }

  /** A separator and what follows it, or nothing. */
  lemma ReadTail(more: bool, rest: string, strict: bool)
    requires if more then ReadAll(Some(Outside), rest) == After(strict) else strict
    ensures ReadAll(Some(Outside), if more then "," + rest else "") == After(strict)
  {
    if more { ReadPlainThen(",", rest, strict); }
  }

  lemma {:induction false} ReadItems(i: Items)
    requires i.Item? && ItemsOk(i)
    ensures ReadAll(Some(Outside), ItemsText(i)) == After(StrictItems(i))
  {
    var rest := if i.rest.NoItems? then "" else "," + ItemsText(i.rest);
    if i.rest.Item? { ReadItems(i.rest); }
    ReadTail(i.rest.Item?, ItemsText(i.rest), StrictItems(i.rest));
    ReadValue(i.value);
    ReadPlainThen(i.after, rest, StrictItems(i.rest));
    ReadBoth(Text(i.value), Strict(i.value), i.after + rest, StrictItems(i.rest));
    ReadPlainThen(i.before, Text(i.value) + (i.after + rest), Strict(i.value) && StrictItems(i.rest));
  }

  lemma {:induction false} ReadMembers(m: Members)
    requires m.Member? && MembersOk(m)
    ensures ReadAll(Some(Outside), MembersText(m)) == After(StrictMembers(m))
  {
    var rest := if m.rest.NoMembers? then "" else "," + MembersText(m.rest);
    if m.rest.Member? { ReadMembers(m.rest); }
    ReadTail(m.rest.Member?, MembersText(m.rest), StrictMembers(m.rest));
    ReadValue(m.value);
    ReadQuoted(m.name);
    ReadMember(m, Text(m.value), rest);
  }

  lemma ReadMember(m: Members, value: string, rest: string)
    requires m.Member? && AllSpace(m.before) && AllSpace(m.gap) && AllSpace(m.gap2) && AllSpace(m.after)
    requires ReadAll(Some(Outside), Quoted(m.name)) == After(StrictPieces(m.name))
    requires ReadAll(Some(Outside), value) == After(Strict(m.value)) && ReadAll(Some(Outside), rest) == After(StrictMembers(m.rest))
    ensures ReadAll(Some(Outside), m.before + (Quoted(m.name) + (m.gap + (":" + (m.gap2 + (value + (m.after + rest)))))))
         == After(StrictPieces(m.name) && Strict(m.value) && StrictMembers(m.rest))
  {
    var sr := StrictMembers(m.rest);
    var sv := Strict(m.value) && sr;
    ReadPlainThen(m.after, rest, sr);
    ReadBoth(value, Strict(m.value), m.after + rest, sr);
    ReadPlainThen(m.gap2, value + (m.after + rest), sv);
    ReadPlainThen(":", m.gap2 + (value + (m.after + rest)), sv);
    ReadPlainThen(m.gap, ":" + (m.gap2 + (value + (m.after + rest))), sv);
    var tail := m.gap + (":" + (m.gap2 + (value + (m.after + rest))));
    ReadBoth(Quoted(m.name), StrictPieces(m.name), tail, sv);
    ReadPlainThen(m.before, Quoted(m.name) + tail, StrictPieces(m.name) && sv);
  }

  /** A text of the lenient grammar is JSON exactly when its tree is strict, however else it might be parsed. */
  lemma TextIsJsonIff(v: Json)
    requires ValueOk(v)
    ensures IsJson(Text(v)) <==> Strict(v)
  {
    ReadValue(v);
    if IsJson(Text(v)) {
      var w :| ValueOk(w) && Strict(w) && Text(w) == Text(v);
      ReadValue(w);
    }
  }

  // ---- frames --------------------------------------------------------------------------------------

  predicate OptStrict(v: Option<Json>) { v.Some? ==> Strict(v.value) }

  lemma {:induction false} EscapedIsStrict(s: string)
    ensures StrictPieces(EscapePieces(s)) <==> NoControls(s)
  {
    if s == "" { return; }
    EscapedIsStrict(s[1..]);
    var ps := EscapePieces(s);
    assert ps[1..] == EscapePieces(s[1..]);
    assert NoControls(s) <==> !IsControl(s[0]) && NoControls(s[1..]) by {
      if !IsControl(s[0]) && NoControls(s[1..]) {
        forall i | 0 <= i < |s| ensures !IsControl(s[i]) { if i > 0 { assert s[1..][i - 1] == s[i]; } }
      }
    }
    assert StrictPieces(ps) <==> StrictPieces([ps[0]]) && StrictPieces(ps[1..]) by {
      assert [ps[0]][0] == ps[0];
      if StrictPieces([ps[0]]) && StrictPieces(ps[1..]) {
        forall i | 0 <= i < |ps| && ps[i].Raw? ensures !IsControl(ps[i].c) { if i > 0 { assert ps[1..][i - 1] == ps[i]; } }
      }
    }
    assert StrictPieces([ps[0]]) <==> !IsControl(s[0]) by { assert [ps[0]][0] == ps[0]; }
  }

  lemma TightIsStrict(name: string, value: Json, rest: Members)
    requires PlainName(name)
    ensures StrictMembers(Tight(name, value, rest)) <==> Strict(value) && StrictMembers(rest)
    ensures ValueOk(value) && MembersOk(rest) ==> MembersOk(Tight(name, value, rest))
  {}

  lemma PayloadIsStrict(payload: Option<Json>, lineage: Option<Json>)
    requires OptOk(payload) && OptOk(lineage)
    ensures var m := PayloadMembers(payload, lineage); MembersOk(m) && (StrictMembers(m) <==> OptStrict(payload) && OptStrict(lineage))
  {
    FrameNames();
    if lineage.Some? {
      TightIsStrict("lineage", lineage.value, NoMembers);
      TightIsStrict("version", JString(RawPieces("2")), Tight("lineage", lineage.value, NoMembers));
    }
    if payload.Some? { TightIsStrict(Payload, payload.value, LineageMembers(lineage)); }
  }

  lemma FrameIsStrict(kind: string, session: string, number: int, payload: Option<Json>, lineage: Option<Json>)
    requires OptOk(payload) && OptOk(lineage)
    ensures var m := FrameMembers(kind, session, number, payload, lineage);
      MembersOk(m) && (StrictMembers(m) <==> NoControls(kind) && NoControls(session) && OptStrict(payload) && OptStrict(lineage))
  {
    FrameNames();
    EscapedIsStrict(kind);
    EscapedIsStrict(session);
    EscapedIsPieces(kind);
    EscapedIsPieces(session);
    IntegerIsNumber(number);
    var m1 := PayloadMembers(payload, lineage);
    PayloadIsStrict(payload, lineage);
    var q, n, t := JNumber(IntegerNumber(number)), JString(EscapePieces(session)), JString(EscapePieces(kind));
    TightIsStrict("seq", q, m1);
    TightIsStrict("session_id", n, Tight("seq", q, m1));
    TightIsStrict("type", t, Tight("session_id", n, Tight("seq", q, m1)));
  }

  /** The encoder escapes quotes and backslashes only: its frame is JSON exactly when nothing else needed escaping. */
  lemma FrameIsJsonIff(kind: string, session: string, number: int, payload: Option<Json>, lineage: Option<Json>)
    requires OptOk(payload) && OptOk(lineage)
    ensures IsJson(EncodeOutbound(kind, session, number, OptText(payload), OptText(lineage)))
       <==> NoControls(kind) && NoControls(session) && OptStrict(payload) && OptStrict(lineage)
  {
    FrameIsObject(kind, session, number, payload, lineage);
    FrameIsStrict(kind, session, number, payload, lineage);
    TextIsJsonIff(JObject("", FrameMembers(kind, session, number, payload, lineage)));
  }

  /** A newline in the session id is enough. */
  lemma NewlineIsNotJson(kind: string, number: int)
    ensures !IsJson(EncodeOutbound(kind, "a\nb", number, None, None))
  {
    var session := "a\nb";
    assert IsControl(session[1]);
    FrameIsJsonIff(kind, session, number, None, None);
    assert OptText(None) == None;
  }
}
