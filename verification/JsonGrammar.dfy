/**
 * JSON texts as concrete syntax trees, after the grammar of RFC 8259. A byte string is a string
 * whose characters stand for bytes. Strings may hold any byte but a bare quote or backslash, which
 * is more than section 7 of RFC 8259 allows.
 */
module JsonGrammar {
  import opened Decimals

  datatype Piece = Raw(c: char) | Esc(c: char) | Unicode(hex: string)

  datatype Exponent = NoExponent | Exponent(e: char, sign: string, digits: string)
  datatype Number = Number(minus: bool, whole: string, frac: string, exp: Exponent)

  datatype Json =
    | JNull
    | JTrue
    | JFalse
    | JNumber(n: Number)
    | JString(pieces: seq<Piece>)
    | JArray(gap: string, items: Items)
    | JObject(gap: string, members: Members)
  datatype Items = NoItems | Item(before: string, value: Json, after: string, rest: Items)
  datatype Members =
    | NoMembers
    | Member(before: string, name: seq<Piece>, gap: string, gap2: string, value: Json, after: string, rest: Members)

  predicate IsSpace(c: char) { c == ' ' || c == '\t' || c == '\n' || c == '\r' }
  predicate AllSpace(s: string) { forall i :: 0 <= i < |s| ==> IsSpace(s[i]) }
  predicate AllDigits(s: string) { forall i :: 0 <= i < |s| ==> IsDigit(s[i]) }

  /** What ends a token that does not end itself. */
  predicate IsDelimiter(c: char) { IsSpace(c) || c == ',' || c == ']' || c == '}' }

  // ---- texts ----------------------------------------------------------------------

  function PieceText(p: Piece): string {
    match p
    case Raw(c) => [c]
    case Esc(c) => ['\\', c]
    case Unicode(h) => "\\u" + h
  }

  function PiecesText(ps: seq<Piece>): string { if ps == [] then "" else PieceText(ps[0]) + PiecesText(ps[1..]) }

  function Quoted(ps: seq<Piece>): string { "\"" + PiecesText(ps) + "\"" }

  function ExponentText(e: Exponent): string { if e.NoExponent? then "" else [e.e] + e.sign + e.digits }

  function NumberText(n: Number): string {
    (if n.minus then "-" else "") + n.whole + (if n.frac == "" then "" else "." + n.frac) + ExponentText(n.exp)
  }

  function Text(v: Json): string {
    match v
    case JNull => "null"
    case JTrue => "true"
    case JFalse => "false"
    case JNumber(n) => NumberText(n)
    case JString(ps) => Quoted(ps)
    case JArray(gap, items) => "[" + (if items.NoItems? then gap else ItemsText(items)) + "]"
    case JObject(gap, members) => "{" + (if members.NoMembers? then gap else MembersText(members)) + "}"
  }

  function ItemsText(i: Items): string {
    match i
    case NoItems => ""
    case Item(before, v, after, rest) =>
      before + (Text(v) + (after + (if rest.NoItems? then "" else "," + ItemsText(rest))))
  }

  function MembersText(m: Members): string {
    match m
    case NoMembers => ""
    case Member(before, name, gap, gap2, v, after, rest) =>
      before + (Quoted(name) + (gap + (":" + (gap2 + (Text(v) + (after + (if rest.NoMembers? then "" else "," + MembersText(rest))))))))
  }

  // ---- well-formedness --------------------------------------------------------------

  predicate PieceOk(p: Piece) {
    match p
    case Raw(c) => c != '"' && c != '\\'
    case Esc(c) => c in "\"\\/bfnrt"
    case Unicode(h) => |h| == 4 && forall i :: 0 <= i < 4 ==> h[i] in "0123456789abcdefABCDEF"
  }

  predicate PiecesOk(ps: seq<Piece>) { forall i :: 0 <= i < |ps| ==> PieceOk(ps[i]) }

  predicate NumberOk(n: Number) {
    && n.whole != "" && AllDigits(n.whole) && (n.whole[0] == '0' ==> |n.whole| == 1) && AllDigits(n.frac)
    && (n.exp.Exponent? ==> n.exp.e in "eE" && n.exp.sign in ["", "+", "-"] && n.exp.digits != "" && AllDigits(n.exp.digits))
  }

  predicate ValueOk(v: Json) {
    match v
    case JNumber(n) => NumberOk(n)
    case JString(ps) => PiecesOk(ps)
    case JArray(gap, items) => AllSpace(gap) && ItemsOk(items)
    case JObject(gap, members) => AllSpace(gap) && MembersOk(members)
    case _ => true
  }

  predicate ItemsOk(i: Items) {
    i.Item? ==> AllSpace(i.before) && AllSpace(i.after) && ValueOk(i.value) && ItemsOk(i.rest)
  }

  predicate MembersOk(m: Members) {
    m.Member? ==>
      && AllSpace(m.before) && PiecesOk(m.name) && AllSpace(m.gap) && AllSpace(m.gap2)
      && ValueOk(m.value) && AllSpace(m.after) && MembersOk(m.rest)
  }
}
