/**
 * The frame codec of clients/swift/Sources/AresTransport/WSFrame.swift: encoding a frame around raw
 * payload bytes, and cutting the payload back out without reserialising it.
 */
module WSFrame {
  import opened Wrappers
  import opened Decimals
  import opened JsonGrammar

  // ---- the scanner, as functions of what is left to read ------------------------------

  function SkipSpace(s: string): (r: string)
    ensures |r| <= |s|
  {
    if s != "" && IsSpace(s[0]) then SkipSpace(s[1..]) else s
  }

  function Consume(c: char, s: string): Option<string> { if s != "" && s[0] == c then Some(s[1..]) else None }

  function StringBody(s: string): (r: Option<string>)
    ensures r.Some? ==> |r.value| < |s|
  {
    if s == "" then None
    else if s[0] == '"' then Some(s[1..])
    else if s[0] == '\\' then
      if |s| < 2 then None
      else if s[1] == 'u' then if |s| < 6 then None else StringBody(s[6..])
      else StringBody(s[2..])
    else StringBody(s[1..])
  }

  function SkipString(s: string): (r: Option<string>)
    ensures r.Some? ==> |r.value| < |s|
  {
    if Consume('"', s).Some? then StringBody(s[1..]) else None
  }

  function TokenEnd(s: string): (r: string)
    ensures |r| <= |s|
  {
    if s != "" && !IsDelimiter(s[0]) then TokenEnd(s[1..]) else s
  }

  function SkipValue(s: string): (r: Option<string>)
    ensures r.Some? ==> |r.value| < |s|
    decreases |s|, 2
  {
    if s == "" then None
    else if s[0] == '"' then SkipString(s)
    else if s[0] == '{' then SkipObject(s)
    else if s[0] == '[' then SkipArray(s)
    else if |TokenEnd(s)| < |s| then Some(TokenEnd(s)) else None
  }

  function SkipObject(s: string): (r: Option<string>)
    ensures r.Some? ==> |r.value| < |s|
    decreases |s|, 1
  {
    if Consume('{', s).None? then None else
      var t := SkipSpace(s[1..]);
      if Consume('}', t).Some? then Some(t[1..]) else SkipMembers(t)
  }

  function SkipMembers(s: string): (r: Option<string>)
    ensures r.Some? ==> |r.value| < |s|
    decreases |s|, 3
  {
    var name := SkipString(s);
    if name.None? then None else
      var colon := SkipSpace(name.value);
      if Consume(':', colon).None? then None else
        var value := SkipValue(SkipSpace(colon[1..]));
        if value.None? then None else
          var t := SkipSpace(value.value);
          if Consume(',', t).Some? then SkipMembers(SkipSpace(t[1..]))
          else Consume('}', t)
  }

  function SkipArray(s: string): (r: Option<string>)
    ensures r.Some? ==> |r.value| < |s|
    decreases |s|, 1
  {
    if Consume('[', s).None? then None else
      var t := SkipSpace(s[1..]);
      if Consume(']', t).Some? then Some(t[1..]) else SkipItems(t)
  }

  function SkipItems(s: string): (r: Option<string>)
    ensures r.Some? ==> |r.value| < |s|
    decreases |s|, 3
  {
    var value := SkipValue(s);
    if value.None? then None else
      var t := SkipSpace(value.value);
      if Consume(',', t).Some? then SkipItems(SkipSpace(t[1..]))
      else Consume(']', t)
  }

  // ---- a well-formed value is skipped exactly ------------------------------------------

  predicate Delimited(rest: string) { rest == "" || IsDelimiter(rest[0]) }
  predicate Solid(rest: string) { rest == "" || !IsSpace(rest[0]) }

  lemma {:induction false} SpaceIsSkipped(ws: string, rest: string)
    requires AllSpace(ws) && Solid(rest)
    ensures SkipSpace(ws + rest) == rest
  {
    if ws == "" {
      assert ws + rest == rest;
    } else {
      assert (ws + rest)[1..] == ws[1..] + rest;
      SpaceIsSkipped(ws[1..], rest);
    }
  }

  lemma {:induction false} PiecesAreSkipped(ps: seq<Piece>, rest: string)
    requires PiecesOk(ps)
    ensures StringBody(PiecesText(ps) + ("\"" + rest)) == Some(rest)
  {
    var tail := "\"" + rest;
    if ps == [] {
      assert PiecesText(ps) + tail == tail && tail[1..] == rest;
      return;
    }
    var head, more := PieceText(ps[0]), PiecesText(ps[1..]) + tail;
    assert PiecesText(ps) + tail == head + more;
    assert (head + more)[|head|..] == more;
    PiecesAreSkipped(ps[1..], rest);
    assert PieceOk(ps[0]);
    match ps[0]
    case Raw(c) =>
    case Esc(c) =>
      assert (head + more)[1] == c;
    case Unicode(h) =>
      assert (head + more)[1] == 'u' && |head| == 6;
  }

  lemma StringIsSkipped(ps: seq<Piece>, rest: string)
    requires PiecesOk(ps)
    ensures SkipString(Quoted(ps) + rest) == Some(rest)
  {
    var s := Quoted(ps) + rest;
    assert s[1..] == PiecesText(ps) + ("\"" + rest);
    PiecesAreSkipped(ps, rest);
  }

  predicate NoDelimiter(t: string) { forall i :: 0 <= i < |t| ==> !IsDelimiter(t[i]) }

  lemma {:induction false} TokenIsSkipped(t: string, rest: string)
    requires NoDelimiter(t) && Delimited(rest)
    ensures TokenEnd(t + rest) == rest
  {
    if t == "" {
      assert t + rest == rest;
    } else {
      assert (t + rest)[1..] == t[1..] + rest;
      TokenIsSkipped(t[1..], rest);
    }
  }

  predicate IsToken(v: Json) { v.JNull? || v.JTrue? || v.JFalse? || v.JNumber? }

  lemma DigitsDoNotDelimit(s: string)
    requires AllDigits(s)
    ensures NoDelimiter(s)
  {}

  lemma NumbersDoNotDelimit(n: Number)
    requires NumberOk(n)
    ensures NoDelimiter(NumberText(n)) && NumberText(n) != ""
    ensures NumberText(n)[0] == '-' || IsDigit(NumberText(n)[0])
  {
    DigitsDoNotDelimit(n.whole);
    DigitsDoNotDelimit(n.frac);
    if n.exp.Exponent? {
      DigitsDoNotDelimit(n.exp.digits);
      assert NoDelimiter([n.exp.e]) && NoDelimiter(n.exp.sign);
    }
  }

  lemma ValueStarts(v: Json)
    requires ValueOk(v)
    ensures Text(v) != "" && !IsDelimiter(Text(v)[0])
    ensures IsToken(v) ==> NoDelimiter(Text(v)) && Text(v)[0] !in "\"{["
  {
    if v.JNumber? { NumbersDoNotDelimit(v.n); }
  }

  lemma TokenValueIsSkipped(v: Json, rest: string)
    requires ValueOk(v) && IsToken(v) && Delimited(rest)
    ensures SkipValue(Text(v) + rest) == Some(rest)
  {
    ValueStarts(v);
    TokenIsSkipped(Text(v), rest);
    assert (Text(v) + rest)[0] == Text(v)[0];
  }

  /** For every well-formed value followed by a delimiter, the scanner stops exactly at its end. */
  lemma {:induction false} ValueIsSkipped(v: Json, rest: string)
    requires ValueOk(v) && (IsToken(v) ==> Delimited(rest))
    ensures SkipValue(Text(v) + rest) == Some(rest)
    decreases v, 1
  {
    match v
    case JString(ps) => StringIsSkipped(ps, rest);
    case JArray(gap, items) =>
      if items.Item? { ItemsAreSkipped(items, rest); } else { SpaceIsSkipped(gap, "]" + rest); }
      ArrayIsSkipped(if items.NoItems? then gap else ItemsText(items), rest);
    case JObject(gap, members) =>
      if members.Member? { MembersAreSkipped(members, rest); } else { SpaceIsSkipped(gap, "}" + rest); }
      ObjectIsSkipped(if members.NoMembers? then gap else MembersText(members), rest);
    case _ => TokenValueIsSkipped(v, rest);
  }

  lemma ArrayIsSkipped(body: string, rest: string)
    requires var t := SkipSpace(body + ("]" + rest));
      t == "]" + rest || (t != "" && t[0] != ']' && SkipItems(t) == Some(rest))
    ensures SkipValue("[" + body + "]" + rest) == Some(rest)
  {
    var s := "[" + body + "]" + rest;
    assert s[0] == '[' && s[1..] == body + ("]" + rest);
    assert ("]" + rest)[1..] == rest;
  }

  lemma ObjectIsSkipped(body: string, rest: string)
    requires var t := SkipSpace(body + ("}" + rest));
      t == "}" + rest || (t != "" && t[0] == '"' && SkipMembers(t) == Some(rest))
    ensures SkipValue("{" + body + "}" + rest) == Some(rest)
  {
    var s := "{" + body + "}" + rest;
    assert s[0] == '{' && s[1..] == body + ("}" + rest);
    assert ("}" + rest)[1..] == rest;
  }

  /** What follows an item's value: its trailing space, then a comma and the next item, or the bracket. */
  function AfterItem(i: Items, rest: string): string
    requires i.Item?
  {
    if i.rest.NoItems? then "]" + rest else "," + (ItemsText(i.rest) + ("]" + rest))
  }

  lemma ItemText(i: Items, rest: string)
    requires i.Item?
    ensures ItemsText(i) + ("]" + rest) == i.before + (Text(i.value) + (i.after + AfterItem(i, rest)))
  {
    CommaTail(i.rest.NoItems?, ItemsText(i.rest), "]" + rest);
    Push4(i.before, Text(i.value), i.after, if i.rest.NoItems? then "" else "," + ItemsText(i.rest), "]" + rest);
  }

  lemma {:induction false} ItemsAreSkipped(i: Items, rest: string)
    requires ItemsOk(i) && i.Item?
    ensures var t := SkipSpace(ItemsText(i) + ("]" + rest)); SkipItems(t) == Some(rest) && t != "" && t[0] != ']'
    decreases i, 0
  {
    var after := AfterItem(i, rest);
    var more := Text(i.value) + (i.after + after);
    ItemText(i, rest);
    ValueStarts(i.value);
    assert more[0] == Text(i.value)[0];
    SpaceIsSkipped(i.before, more);
    ValueIsSkipped(i.value, i.after + after);
    SpaceIsSkipped(i.after, after);
    assert after[1..] == if i.rest.NoItems? then rest else ItemsText(i.rest) + ("]" + rest);
    if i.rest.Item? { ItemsAreSkipped(i.rest, rest); }
  }

  function AfterMember(m: Members, rest: string): string
    requires m.Member?
  {
    if m.rest.NoMembers? then "}" + rest else "," + (MembersText(m.rest) + ("}" + rest))
  }

  /** A member's text from its value on, and from its colon on. */
  function FromValue(m: Members, rest: string): string
    requires m.Member?
  {
    Text(m.value) + (m.after + AfterMember(m, rest))
  }
  function FromColon(m: Members, rest: string): string
    requires m.Member?
  {
    ":" + (m.gap2 + FromValue(m, rest))
  }

  lemma MemberText(m: Members, rest: string)
    requires m.Member?
    ensures MembersText(m) + ("}" + rest) == m.before + (Quoted(m.name) + (m.gap + FromColon(m, rest)))
  {
    var tail := if m.rest.NoMembers? then "" else "," + MembersText(m.rest);
    var end := "}" + rest;
    CommaTail(m.rest.NoMembers?, MembersText(m.rest), end);
    Push4(m.gap2, Text(m.value), m.after, tail, end);
    Push3(m.before, Quoted(m.name), m.gap + (":" + (m.gap2 + (Text(m.value) + (m.after + tail)))), end);
    Push3(m.gap, ":", m.gap2 + (Text(m.value) + (m.after + tail)), end);
  }

  lemma Assoc(a: string, b: string, c: string)
    ensures (a + b) + c == a + (b + c)
  {}

  lemma NoSpace(s: string)
    ensures "" + s == s && s + "" == s
  {}

  lemma Push3(a: string, b: string, c: string, e: string)
    ensures (a + (b + c)) + e == a + (b + (c + e))
  {
    Assoc(a, b + c, e);
    Assoc(b, c, e);
  }

  lemma Push4(a: string, b: string, c: string, d: string, e: string)
    ensures (a + (b + (c + d))) + e == a + (b + (c + (d + e)))
  {
    Push3(a, b, c + d, e);
    Assoc(c, d, e);
  }

  /** Nothing, or a comma and more, in front of a closing text. */
  lemma CommaTail(none: bool, more: string, end: string)
    ensures (if none then "" else "," + more) + end == if none then end else "," + (more + end)
  {
    NoSpace(end);
    Assoc(",", more, end);
  }

  /** A member taken apart: its name, then the colon, then its value, then what follows. */
  lemma MemberParts(m: Members, rest: string)
    requires MembersOk(m) && m.Member?
    ensures var colon, value := FromColon(m, rest), FromValue(m, rest);
      && SkipSpace(MembersText(m) + ("}" + rest)) == Quoted(m.name) + (m.gap + colon)
      && SkipString(Quoted(m.name) + (m.gap + colon)) == Some(m.gap + colon)
      && SkipSpace(m.gap + colon) == colon && SkipSpace(colon[1..]) == value
      && SkipSpace(m.after + AfterMember(m, rest)) == AfterMember(m, rest)
  {
    var colon, value := FromColon(m, rest), FromValue(m, rest);
    MemberText(m, rest);
    SpaceIsSkipped(m.before, Quoted(m.name) + (m.gap + colon));
    StringIsSkipped(m.name, m.gap + colon);
    SpaceIsSkipped(m.gap, colon);
    ValueStarts(m.value);
    assert value[0] == Text(m.value)[0];
    assert colon[1..] == m.gap2 + value;
    SpaceIsSkipped(m.gap2, value);
    SpaceIsSkipped(m.after, AfterMember(m, rest));
  }

  /** One turn of the object loop, on a member cut into its parts. */
  lemma OneMember(name: string, tail: string, colon: string, text: string, rest: string)
    requires SkipString(name + tail) == Some(tail) && SkipSpace(tail) == colon && Consume(':', colon).Some?
    requires SkipSpace(colon[1..]) == text + rest && SkipValue(text + rest) == Some(rest)
    ensures var t := SkipSpace(rest);
      SkipMembers(name + tail) == if Consume(',', t).Some? then SkipMembers(SkipSpace(t[1..])) else Consume('}', t)
  {}

  lemma {:induction false} MembersAreSkipped(m: Members, rest: string)
    requires MembersOk(m) && m.Member?
    ensures var t := SkipSpace(MembersText(m) + ("}" + rest)); SkipMembers(t) == Some(rest) && t != "" && t[0] == '"'
    decreases m, 0
  {
    var colon, after := FromColon(m, rest), AfterMember(m, rest);
    MemberParts(m, rest);
    AfterMemberStarts(m, rest);
    ValueIsSkipped(m.value, m.after + after);
    OneMember(Quoted(m.name), m.gap + colon, colon, Text(m.value), m.after + after);
    if m.rest.Member? { MembersAreSkipped(m.rest, rest); }
  }

  // ---- extracting a top-level value --------------------------------------------------

  /** A raw value as the frame reports it: an explicit null counts as absent. */
  function Present(text: string): Option<string> { if text == "null" then None else Some(text) }

  /** One member as read: its decoded name, the raw text of its value, and what is left. */
  datatype Entry = Entry(name: string, text: string, rest: string)

  /** A member's decoded name, and what is left from its value on. */
  datatype Head = Head(name: string, rest: string)

  function ReadName(decode: string -> Option<string>, s: string): (r: Option<Head>)
    ensures r.Some? ==> |r.value.rest| < |s|
  {
    var name := SkipString(s);
    if name.None? then None else
      var decoded := decode(s[..|s| - |name.value|]);
      if decoded.None? then None else
        var colon := SkipSpace(name.value);
        if Consume(':', colon).None? then None else Some(Head(decoded.value, SkipSpace(colon[1..])))
  }

  function ReadEntry(decode: string -> Option<string>, s: string): (r: Option<Entry>)
    ensures r.Some? ==> |r.value.rest| < |s|
  {
    var head := ReadName(decode, s);
    if head.None? then None else
      var v := head.value.rest;
      var after := SkipValue(v);
      if after.None? then None else Some(Entry(head.value.name, v[..|v| - |after.value|], after.value))
  }

  /** The members still to read; `result` is what the last match so far gave. */
  function Fields(decode: string -> Option<string>, key: string, s: string, result: Option<string>): Option<string>
    decreases |s|
  {
    if s == "" || s[0] == '}' then result else
      var e := ReadEntry(decode, s);
      if e.None? then None else
        var found := if e.value.name == key then Present(e.value.text) else result;
        var t := SkipSpace(e.value.rest);
        if Consume(',', t).Some? then Fields(decode, key, SkipSpace(t[1..]), found) else found
  }

  /** The scanner's answer for a key of the top-level object; decoding a name is JSONDecoder's work. */
  function Extract(decode: string -> Option<string>, key: string, raw: string): Option<string> {
    var t := SkipSpace(raw);
    if Consume('{', t).None? then None else Fields(decode, key, SkipSpace(t[1..]), None)
  }

  /** The last member with this name, by the syntax tree. */
  function LastNamed(decode: string -> Option<string>, key: string, m: Members, result: Option<string>): Option<string> {
    if m.NoMembers? then result
    else LastNamed(decode, key, m.rest,
                   if decode(Quoted(m.name)) == Some(key) then if m.value.JNull? then None else Some(Text(m.value)) else result)
  }

  predicate NamesDecode(decode: string -> Option<string>, m: Members) {
    m.Member? ==> decode(Quoted(m.name)).Some? && NamesDecode(decode, m.rest)
  }

  lemma NullText(v: Json)
    requires ValueOk(v)
    ensures Text(v) == "null" <==> v.JNull?
  {
    match v
    case JNumber(n) =>
      NumbersDoNotDelimit(n);
      assert Text(v)[0] != "null"[0];
    case JTrue => assert Text(v)[0] != "null"[0];
    case JFalse => assert Text(v)[0] != "null"[0];
    case JString(_) => assert Text(v)[0] != "null"[0];
    case JArray(_, _) => assert Text(v)[0] != "null"[0];
    case JObject(_, _) => assert Text(v)[0] != "null"[0];
    case JNull =>
  }

  /** One turn of the member loop, on a member cut into its parts. */
  lemma OneField(decode: string -> Option<string>, key: string, name: string, tail: string,
                 colon: string, text: string, rest: string, result: Option<string>)
    requires name != "" && name[0] == '"' && SkipString(name + tail) == Some(tail) && decode(name).Some?
    requires SkipSpace(tail) == colon && Consume(':', colon).Some? && SkipSpace(colon[1..]) == text + rest
    requires SkipValue(text + rest) == Some(rest)
    ensures var found := if decode(name) == Some(key) then Present(text) else result;
      var t := SkipSpace(rest);
      Fields(decode, key, name + tail, result)
        == if Consume(',', t).Some? then Fields(decode, key, SkipSpace(t[1..]), found) else found
  {
    var s := name + tail;
    assert s[..|s| - |tail|] == name;
    var v := text + rest;
    assert v[..|v| - |rest|] == text;
  }

  lemma {:induction false} FieldsAreRead(decode: string -> Option<string>, key: string, m: Members, rest: string, result: Option<string>)
    requires MembersOk(m) && m.Member? && NamesDecode(decode, m)
    ensures Fields(decode, key, SkipSpace(MembersText(m) + ("}" + rest)), result) == LastNamed(decode, key, m, result)
    decreases m
  {
    var colon, after := FromColon(m, rest), AfterMember(m, rest);
    MemberParts(m, rest);
    AfterMemberStarts(m, rest);
    ValueIsSkipped(m.value, m.after + after);
    OneField(decode, key, Quoted(m.name), m.gap + colon, colon, Text(m.value), m.after + after, result);
    NullText(m.value);
    if m.rest.Member? {
      var found := if decode(Quoted(m.name)) == Some(key) then Present(Text(m.value)) else result;
      FieldsAreRead(decode, key, m.rest, rest, found);
    }
  }

  lemma AfterMemberStarts(m: Members, rest: string)
    requires m.Member? && MembersOk(m)
    ensures var after := AfterMember(m, rest);
      after != "" && Delimited(m.after + after) && after[0] == (if m.rest.NoMembers? then '}' else ',')
      && after[1..] == if m.rest.NoMembers? then rest else MembersText(m.rest) + ("}" + rest)
  {}

  /** On every well-formed top-level object the scanner returns the last member of that name, byte for byte. */
  lemma ExtractIsExact(decode: string -> Option<string>, key: string, lead: string, gap: string, m: Members, rest: string)
    requires AllSpace(lead) && AllSpace(gap) && MembersOk(m) && NamesDecode(decode, m)
    ensures Extract(decode, key, lead + (Text(JObject(gap, m)) + rest)) == LastNamed(decode, key, m, None)
  {
    if m.NoMembers? {
      ExtractBody(decode, key, lead, gap, rest);
      SpaceIsSkipped(gap, "}" + rest);
    } else {
      ExtractBody(decode, key, lead, MembersText(m), rest);
      FieldsAreRead(decode, key, m, rest, None);
    }
  }

  lemma ExtractBody(decode: string -> Option<string>, key: string, lead: string, body: string, rest: string)
    requires AllSpace(lead)
    ensures Extract(decode, key, lead + ("{" + body + "}" + rest)) == Fields(decode, key, SkipSpace(body + ("}" + rest)), None)
  {
    var obj := "{" + body + "}" + rest;
    assert obj[0] == '{' && obj[1..] == body + ("}" + rest);
    SpaceIsSkipped(lead, obj);
  }

  // ---- encoding a frame --------------------------------------------------------------

  function Replace(s: string, c: char, sub: string): string {
    if s == "" then "" else (if s[0] == c then sub else [s[0]]) + Replace(s[1..], c, sub)
  }

  /** Backslashes first, then quotes, in two passes; nothing else is escaped. */
  function Escaped(s: string): string { "\"" + Replace(Replace(s, '\\', "\\\\"), '"', "\\\"") + "\"" }

  function Integer(n: int): string { if n < 0 then "-" + Decimal(-n) else Decimal(n) }

  function Joined(fields: seq<string>): string {
    if fields == [] then "" else if |fields| == 1 then fields[0] else fields[0] + "," + Joined(fields[1..])
  }

  function Field(name: string, text: string): string { "\"" + name + "\":" + text }

  /** The frame around a raw payload; a lineage node also sets the version. */
  function EncodeOutbound(kind: string, session: string, number: int,
                          payload: Option<string>, lineage: Option<string>): string {
    var top := [Field("type", Escaped(kind)), Field("session_id", Escaped(session)), Field("seq", Integer(number))];
    var top1 := if payload.Some? then top + [Field(Payload, payload.value)] else top;
    var top2 := if lineage.Some? then top1 + [Field("version", "\"2\""), Field("lineage", lineage.value)] else top1;
    "{" + Joined(top2) + "}"
  }

  const Payload := "payload"

  /** The escaped text as pieces: each byte escaped on its own. */
  function EscapePieces(s: string): seq<Piece> {
    if s == "" then []
    else [if s[0] == '\\' || s[0] == '"' then Esc(s[0]) else Raw(s[0])] + EscapePieces(s[1..])
  }

  lemma {:induction false} ReplaceSplits(a: string, b: string, c: char, sub: string)
    ensures Replace(a + b, c, sub) == Replace(a, c, sub) + Replace(b, c, sub)
  {
    if a == "" {
      assert a + b == b;
    } else {
      assert (a + b)[1..] == a[1..] + b;
      ReplaceSplits(a[1..], b, c, sub);
    }
  }

  lemma {:induction false} EscapedIsPieces(s: string)
    ensures Escaped(s) == Quoted(EscapePieces(s)) && PiecesOk(EscapePieces(s))
  {
    if s == "" { return; }
    EscapedIsPieces(s[1..]);
    var head := if s[0] == '\\' then "\\\\" else [s[0]];
    var tail := Replace(s[1..], '\\', "\\\\");
    ReplaceSplits(head, tail, '"', "\\\"");
    OneEscape(s[0]);
    var ps := EscapePieces(s);
    assert ps[1..] == EscapePieces(s[1..]);
    EqualBodies(Replace(tail, '"', "\\\""), PiecesText(ps[1..]));
  }

  lemma EqualBodies(a: string, b: string)
    requires "\"" + a + "\"" == "\"" + b + "\""
    ensures a == b
  {
    assert a == ("\"" + a + "\"")[1..|a| + 1] && b == ("\"" + b + "\"")[1..|b| + 1];
  }

  lemma OneEscape(c: char)
    ensures Replace(if c == '\\' then "\\\\" else [c], '"', "\\\"")
         == PieceText(if c == '\\' || c == '"' then Esc(c) else Raw(c))
  {
    var one := [c];
    assert Replace(one[1..], '"', "\\\"") == "";
    var two := "\\\\";
    assert two[1..] == "\\" && two[1..][1..] == "";
  }

  // ---- the round trip ------------------------------------------------------------------

  function RawPieces(s: string): seq<Piece> { seq(|s|, i requires 0 <= i < |s| => Raw(s[i])) }

  lemma {:induction false} RawText(s: string)
    ensures PiecesText(RawPieces(s)) == s
  {
    if s != "" {
      assert RawPieces(s)[1..] == RawPieces(s[1..]);
      RawText(s[1..]);
      assert s == [s[0]] + s[1..];
    }
  }

  /** A member without any space, as the encoder writes it. */
  function Tight(name: string, value: Json, rest: Members): Members {
    Member("", RawPieces(name), "", "", value, "", rest)
  }

  lemma TightText(name: string, value: Json, rest: Members)
    ensures MembersText(Tight(name, value, rest)) == Field(name, Text(value)) + (if rest.NoMembers? then "" else "," + MembersText(rest))
  {
    RawText(name);
    var t := if rest.NoMembers? then "" else "," + MembersText(rest);
    var v, q := Text(value), Quoted(RawPieces(name));
    NoSpace(t);
    NoSpace(v + t);
    NoSpace(":" + (v + t));
    NoSpace(q + (":" + (v + t)));
    FieldText(name, v, t);
  }

  lemma FieldText(name: string, v: string, t: string)
    ensures ("\"" + name + "\"") + (":" + (v + t)) == Field(name, v) + t
  {}

  function IntegerNumber(n: int): Number { Number(n < 0, Decimal(if n < 0 then -n else n), "", NoExponent) }

  lemma IntegerIsNumber(n: int)
    ensures NumberOk(IntegerNumber(n)) && NumberText(IntegerNumber(n)) == Integer(n)
  {
    var m := if n < 0 then -n else n;
    DecimalDigits(m);
    if m == 0 { assert Decimal(m) == [Digit(0)]; }
  }

  /** The members of a frame, as a syntax tree. */
  function LineageMembers(lineage: Option<Json>): Members {
    if lineage.None? then NoMembers
    else Tight("version", JString(RawPieces("2")), Tight("lineage", lineage.value, NoMembers))
  }
  function PayloadMembers(payload: Option<Json>, lineage: Option<Json>): Members {
    if payload.None? then LineageMembers(lineage) else Tight(Payload, payload.value, LineageMembers(lineage))
  }
  function FrameMembers(kind: string, session: string, number: int, payload: Option<Json>, lineage: Option<Json>): Members {
    Tight("type", JString(EscapePieces(kind)),
      Tight("session_id", JString(EscapePieces(session)),
        Tight("seq", JNumber(IntegerNumber(number)), PayloadMembers(payload, lineage))))
  }

  function OptText(v: Option<Json>): Option<string> { if v.None? then None else Some(Text(v.value)) }
  predicate OptOk(v: Option<Json>) { v.Some? ==> ValueOk(v.value) }

  /** A list of fields that renders as these members do. */
  ghost predicate Renders(fields: seq<string>, m: Members) {
    (fields == [] <==> m.NoMembers?) && Joined(fields) == MembersText(m)
  }

  lemma RendersOneMore(fields: seq<string>, m: Members, name: string, value: Json)
    requires Renders(fields, m)
    ensures Renders([Field(name, Text(value))] + fields, Tight(name, value, m))
  {
    var f := Field(name, Text(value));
    TightText(name, value, m);
    var all := [f] + fields;
    assert all[1..] == fields;
    if fields == [] { assert Joined(all) == f && f + "" == f; } else { Assoc(f, ",", Joined(fields)); }
  }

  function LineageFields(lineage: Option<string>): seq<string> {
    if lineage.None? then [] else [Field("version", "\"2\"")] + ([Field("lineage", lineage.value)] + [])
  }

  lemma LineageRenders(lineage: Option<Json>)
    ensures Renders(LineageFields(OptText(lineage)), LineageMembers(lineage))
  {
    if lineage.None? { return; }
    RendersOneMore([], NoMembers, "lineage", lineage.value);
    RawText("2");
    assert Text(JString(RawPieces("2"))) == "\"2\"";
    RendersOneMore([Field("lineage", Text(lineage.value))] + [], Tight("lineage", lineage.value, NoMembers), "version", JString(RawPieces("2")));
  }

  function PayloadFields(payload: Option<string>, lineage: Option<string>): seq<string> {
    (if payload.None? then [] else [Field(Payload, payload.value)]) + LineageFields(lineage)
  }

  lemma PayloadRenders(payload: Option<Json>, lineage: Option<Json>)
    ensures Renders(PayloadFields(OptText(payload), OptText(lineage)), PayloadMembers(payload, lineage))
  {
    LineageRenders(lineage);
    if payload.None? {
      assert [] + LineageFields(OptText(lineage)) == LineageFields(OptText(lineage));
    } else {
      RendersOneMore(LineageFields(OptText(lineage)), LineageMembers(lineage), Payload, payload.value);
    }
  }

  lemma FrameHead(kind: string, session: string, number: int, payload: Option<string>, lineage: Option<string>)
    ensures EncodeOutbound(kind, session, number, payload, lineage)
         == "{" + Joined([Field("type", Escaped(kind))] + ([Field("session_id", Escaped(session))]
              + ([Field("seq", Integer(number))] + PayloadFields(payload, lineage)))) + "}"
  {
    var t, n, q := Field("type", Escaped(kind)), Field("session_id", Escaped(session)), Field("seq", Integer(number));
    TopFields(t, n, q, payload, lineage);
  }

  lemma TopFields(t: string, n: string, q: string, payload: Option<string>, lineage: Option<string>)
    ensures var top := [t, n, q];
      var top1 := if payload.Some? then top + [Field(Payload, payload.value)] else top;
      var top2 := if lineage.Some? then top1 + [Field("version", "\"2\""), Field("lineage", lineage.value)] else top1;
      top2 == [t] + ([n] + ([q] + PayloadFields(payload, lineage)))
  {}

  lemma FrameRenders(kind: string, session: string, number: int, fields: seq<string>, m: Members)
    requires Renders(fields, m)
    ensures Renders([Field("type", Escaped(kind))] + ([Field("session_id", Escaped(session))] + ([Field("seq", Integer(number))] + fields)),
                    Tight("type", JString(EscapePieces(kind)), Tight("session_id", JString(EscapePieces(session)),
                      Tight("seq", JNumber(IntegerNumber(number)), m))))
  {
    IntegerIsNumber(number);
    EscapedIsPieces(kind);
    EscapedIsPieces(session);
    var q, n, t := JNumber(IntegerNumber(number)), JString(EscapePieces(session)), JString(EscapePieces(kind));
    RendersOneMore(fields, m, "seq", q);
    var f1, m1 := [Field("seq", Integer(number))] + fields, Tight("seq", q, m);
    RendersOneMore(f1, m1, "session_id", n);
    var f2, m2 := [Field("session_id", Escaped(session))] + f1, Tight("session_id", n, m1);
    RendersOneMore(f2, m2, "type", t);
  }

  /** The encoder writes the text of a JSON object with exactly these members. */
  lemma FrameIsObject(kind: string, session: string, number: int, payload: Option<Json>, lineage: Option<Json>)
    ensures EncodeOutbound(kind, session, number, OptText(payload), OptText(lineage))
         == Text(JObject("", FrameMembers(kind, session, number, payload, lineage)))
  {
    var p, m := PayloadFields(OptText(payload), OptText(lineage)), PayloadMembers(payload, lineage);
    PayloadRenders(payload, lineage);
    FrameRenders(kind, session, number, p, m);
    FrameHead(kind, session, number, OptText(payload), OptText(lineage));
    WrapObject([Field("type", Escaped(kind))] + ([Field("session_id", Escaped(session))] + ([Field("seq", Integer(number))] + p)),
               FrameMembers(kind, session, number, payload, lineage));
  }

  lemma WrapObject(fields: seq<string>, m: Members)
    requires Renders(fields, m) && m.Member?
    ensures "{" + Joined(fields) + "}" == Text(JObject("", m))
  {}

  predicate PlainName(s: string) {
    forall i :: 0 <= i < |s| ==> 'a' <= s[i] <= 'z' || 'A' <= s[i] <= 'Z' || s[i] == '_'
  }

  /** What is asked of the string decoder: a name of letters and underscores decodes to itself. */
  ghost predicate DecodesNames(decode: string -> Option<string>) {
    forall k :: PlainName(k) ==> decode("\"" + k + "\"") == Some(k)
  }

  ghost predicate Readable(decode: string -> Option<string>, m: Members) { MembersOk(m) && NamesDecode(decode, m) }

  /** One member the encoder wrote, as the scanner will find it. */
  lemma TightIsRead(decode: string -> Option<string>, name: string, value: Json, m: Members, key: string, r: Option<string>)
    requires DecodesNames(decode) && PlainName(name) && ValueOk(value) && Readable(decode, m)
    ensures Readable(decode, Tight(name, value, m))
    ensures LastNamed(decode, key, Tight(name, value, m), r)
         == LastNamed(decode, key, m, if name != key then r else if value.JNull? then None else Some(Text(value)))
  {
    RawText(name);
    assert decode(Quoted(RawPieces(name))) == Some(name);
  }

  /** ... and under another name it does not count. */
  lemma OtherIsRead(decode: string -> Option<string>, name: string, value: Json, m: Members, r: Option<string>)
    requires DecodesNames(decode) && PlainName(name) && name != Payload && ValueOk(value) && Readable(decode, m)
    ensures Readable(decode, Tight(name, value, m))
    ensures LastNamed(decode, Payload, Tight(name, value, m), r) == LastNamed(decode, Payload, m, r)
  {
    TightIsRead(decode, name, value, m, Payload, r);
  }

  lemma FrameNames()
    ensures PlainName("type") && PlainName("session_id") && PlainName("seq") && PlainName(Payload) && PlainName("version") && PlainName("lineage")
    ensures "type" != Payload && "session_id" != Payload && "seq" != Payload && "version" != Payload && "lineage" != Payload
  {
    assert Payload[0] == 'p';
  }

  lemma LineageIsRead(decode: string -> Option<string>, lineage: Option<Json>, r: Option<string>)
    requires DecodesNames(decode) && OptOk(lineage)
    ensures var m := LineageMembers(lineage); Readable(decode, m) && LastNamed(decode, Payload, m, r) == r
  {
    if lineage.None? { return; }
    FrameNames();
    var inner := Tight("lineage", lineage.value, NoMembers);
    OtherIsRead(decode, "lineage", lineage.value, NoMembers, r);
    OtherIsRead(decode, "version", JString(RawPieces("2")), inner, r);
  }

  function PayloadFound(payload: Option<Json>): Option<string> {
    if payload.Some? && !payload.value.JNull? then OptText(payload) else None
  }

  lemma PayloadIsRead(decode: string -> Option<string>, payload: Option<Json>, lineage: Option<Json>)
    requires DecodesNames(decode) && OptOk(payload) && OptOk(lineage)
    ensures var m := PayloadMembers(payload, lineage); Readable(decode, m) && LastNamed(decode, Payload, m, None) == PayloadFound(payload)
  {
    LineageIsRead(decode, lineage, PayloadFound(payload));
    if payload.Some? {
      FrameNames();
      TightIsRead(decode, Payload, payload.value, LineageMembers(lineage), Payload, None);
    }
  }

  lemma HeadIsRead(decode: string -> Option<string>, t: Json, n: Json, q: Json, m: Members)
    requires DecodesNames(decode) && Readable(decode, m) && ValueOk(t) && ValueOk(n) && ValueOk(q)
    ensures var all := Tight("type", t, Tight("session_id", n, Tight("seq", q, m)));
      Readable(decode, all) && LastNamed(decode, Payload, all, None) == LastNamed(decode, Payload, m, None)
  {
    FrameNames();
    OtherIsRead(decode, "seq", q, m, None);
    var m1 := Tight("seq", q, m);
    OtherIsRead(decode, "session_id", n, m1, None);
    OtherIsRead(decode, "type", t, Tight("session_id", n, m1), None);
  }

  /**
   * Any frame the encoder writes gives its payload back byte for byte, whatever the other fields hold;
   * a null payload, like a missing one, reads as absent.
   */
  lemma PayloadSurvives(decode: string -> Option<string>, kind: string, session: string, number: int,
                        payload: Option<Json>, lineage: Option<Json>)
    requires DecodesNames(decode) && OptOk(payload) && OptOk(lineage)
    ensures Extract(decode, Payload, EncodeOutbound(kind, session, number, OptText(payload), OptText(lineage)))
         == if payload.Some? && !payload.value.JNull? then OptText(payload) else None
  {
    PayloadIsRead(decode, payload, lineage);
    IntegerIsNumber(number);
    EscapedIsPieces(kind);
    EscapedIsPieces(session);
    HeadIsRead(decode, JString(EscapePieces(kind)), JString(EscapePieces(session)), JNumber(IntegerNumber(number)),
               PayloadMembers(payload, lineage));
    FrameIsObject(kind, session, number, payload, lineage);
    var m := FrameMembers(kind, session, number, payload, lineage);
    ExtractIsExact(decode, Payload, "", "", m, "");
    assert "" + (Text(JObject("", m)) + "") == Text(JObject("", m));
  }

  // ---- white space ----------------------------------------------------------------------

  /** The space, tab, line feed and carriage return of section 2 of RFC 8259, by their codes. */
  predicate Insignificant(c: char) { c as int in {0x20, 0x09, 0x0a, 0x0d} }
  predicate AllInsignificant(w: string) { forall i :: 0 <= i < |w| ==> Insignificant(w[i]) }

  lemma SpacesAreTheFour(c: char)
    ensures IsSpace(c) <==> Insignificant(c)
  {}

  lemma InsignificantIsSpace(w: string)
    requires AllInsignificant(w)
    ensures AllSpace(w)
  {
    forall i | 0 <= i < |w| ensures IsSpace(w[i]) { SpacesAreTheFour(w[i]); }
  }

  /** An object with one member, with these white spaces around its six tokens. */
  function Spaced(name: string, v: string, a: string, b: string, c: string, d: string, e: string): string {
    a + ("{" + (b + ("\"" + name + "\"" + (c + (":" + (d + (v + e)))))) + "}")
  }

  /** Any run of the four bytes, at any place between two tokens, leaves the answer as it is. */
  lemma WhiteSpaceIsIgnored(decode: string -> Option<string>, name: string, v: Json, a: string, b: string, c: string, d: string, e: string)
    requires DecodesNames(decode) && PlainName(name) && ValueOk(v) && !v.JNull?
    requires AllInsignificant(a) && AllInsignificant(b) && AllInsignificant(c) && AllInsignificant(d) && AllInsignificant(e)
    ensures Extract(decode, name, Spaced(name, Text(v), a, b, c, d, e)) == Some(Text(v))
  {
    InsignificantIsSpace(a);
    InsignificantIsSpace(b);
    InsignificantIsSpace(c);
    InsignificantIsSpace(d);
    InsignificantIsSpace(e);
    RawText(name);
    var m := Member(b, RawPieces(name), c, d, v, e, NoMembers);
    assert decode(Quoted(RawPieces(name))) == Some(name);
    ExtractIsExact(decode, name, a, "", m, "");
    NoSpace(e);
    NoSpace(Text(JObject("", m)));
  }

  /** No other byte may stand there: where a name is due, anything but a quote or a brace ends the search. */
  lemma OtherBytesAreNotSkipped(decode: string -> Option<string>, key: string, b: string, c: char, rest: string)
    requires AllInsignificant(b) && !Insignificant(c) && c != '"' && c != '}'
    ensures Extract(decode, key, "{" + (b + ([c] + rest))) == None
  {
    var s := [c] + rest;
    InsignificantIsSpace(b);
    SpacesAreTheFour(c);
    SpaceIsSkipped(b, s);
    assert ("{" + (b + s))[1..] == b + s;
  }
}
