/** The byte scanner of WSFrame.swift as it runs: a cursor over one buffer, moved by each call. */
module WSFrameScanner {
  import opened Wrappers
  import opened JsonGrammar
  import opened WSFrame

  /** A cursor result stands for what is left to read; a failed scan leaves nothing. */
  ghost predicate Agrees(b: string, ok: bool, cursor: nat, r: Option<string>) {
    if ok then cursor <= |b| && r == Some(b[cursor..]) else r.None?
  }

  method SkipWhitespaceAt(b: string, start: nat) returns (cursor: nat)
    requires start <= |b|
    ensures start <= cursor <= |b| && b[cursor..] == SkipSpace(b[start..])
  {
    cursor := start;
    while cursor < |b| && IsSpace(b[cursor])
      invariant start <= cursor <= |b| && SkipSpace(b[cursor..]) == SkipSpace(b[start..])
    {
      assert b[cursor..][1..] == b[cursor + 1..];
      cursor := cursor + 1;
    }
  }

  method ConsumeAt(c: char, b: string, start: nat) returns (ok: bool, cursor: nat)
    requires start <= |b|
    ensures Agrees(b, ok, cursor, Consume(c, b[start..])) && cursor == if ok then start + 1 else start
  {
    if !(start < |b| && b[start] == c) { return false, start; }
    assert b[start..][1..] == b[start + 1..];
    return true, start + 1;
  }

  method SkipStringAt(b: string, start: nat) returns (ok: bool, cursor: nat)
    requires start <= |b|
    ensures Agrees(b, ok, cursor, SkipString(b[start..])) && (ok ==> start < cursor)
  {
    ok, cursor := ConsumeAt('"', b, start);
    if !ok { return; }
    ghost var whole := SkipString(b[start..]);
    while cursor < |b|
      invariant cursor > start
      invariant whole == if cursor <= |b| then StringBody(b[cursor..]) else None
    {
      ghost var s := b[cursor..];
      if b[cursor] == '"' {
        assert s[1..] == b[cursor + 1..];
        return true, cursor + 1;
      } else if b[cursor] == '\\' {
        if cursor + 1 >= |b| { return false, cursor + 1; }
        assert s[1] == b[cursor + 1];
        if b[cursor + 1] == 'u' {
          assert cursor + 6 <= |b| ==> s[6..] == b[cursor + 6..];
          cursor := cursor + 6;
        } else {
          assert s[2..] == b[cursor + 2..];
          cursor := cursor + 2;
        }
      } else {
        assert s[1..] == b[cursor + 1..];
        cursor := cursor + 1;
      }
    }
    return false, cursor;
  }

  method SkipValueAt(b: string, start: nat) returns (ok: bool, cursor: nat)
    requires start <= |b|
    ensures Agrees(b, ok, cursor, SkipValue(b[start..])) && (ok ==> start < cursor)
    decreases |b| - start, 2
  {
    if start >= |b| { return false, start; }
    if b[start] == '"' {
      ok, cursor := SkipStringAt(b, start);
    } else if b[start] == '{' {
      ok, cursor := SkipObjectAt(b, start);
    } else if b[start] == '[' {
      ok, cursor := SkipArrayAt(b, start);
    } else {
      cursor := start;
      while cursor < |b| && !IsSpace(b[cursor]) && b[cursor] != ',' && b[cursor] != ']' && b[cursor] != '}'
        invariant start <= cursor <= |b| && TokenEnd(b[cursor..]) == TokenEnd(b[start..])
      {
        assert b[cursor..][1..] == b[cursor + 1..];
        cursor := cursor + 1;
      }
      ok := cursor > start;
    }
  }

  method SkipObjectAt(b: string, start: nat) returns (ok: bool, cursor: nat)
    requires start <= |b|
    ensures Agrees(b, ok, cursor, SkipObject(b[start..])) && (ok ==> start < cursor)
    decreases |b| - start, 1
  {
    ok, cursor := ConsumeAt('{', b, start);
    if !ok { return; }
    cursor := SkipWhitespaceAt(b, cursor);
    ok, cursor := ConsumeAt('}', b, cursor);
    if ok { return; }
    while true
      invariant start < cursor <= |b| && SkipObject(b[start..]) == SkipMembers(b[cursor..])
      decreases |b| - cursor
    {
      ok, cursor := SkipStringAt(b, cursor);
      if !ok { return; }
      cursor := SkipWhitespaceAt(b, cursor);
      ok, cursor := ConsumeAt(':', b, cursor);
      if !ok { return; }
      cursor := SkipWhitespaceAt(b, cursor);
      ok, cursor := SkipValueAt(b, cursor);
      if !ok { return; }
      cursor := SkipWhitespaceAt(b, cursor);
      ok, cursor := ConsumeAt(',', b, cursor);
      if ok {
        cursor := SkipWhitespaceAt(b, cursor);
        continue;
      }
      ok, cursor := ConsumeAt('}', b, cursor);
      return;
    }
  }

  method SkipArrayAt(b: string, start: nat) returns (ok: bool, cursor: nat)
    requires start <= |b|
    ensures Agrees(b, ok, cursor, SkipArray(b[start..])) && (ok ==> start < cursor)
    decreases |b| - start, 1
  {
    ok, cursor := ConsumeAt('[', b, start);
    if !ok { return; }
    cursor := SkipWhitespaceAt(b, cursor);
    ok, cursor := ConsumeAt(']', b, cursor);
    if ok { return; }
    while true
      invariant start < cursor <= |b| && SkipArray(b[start..]) == SkipItems(b[cursor..])
      decreases |b| - cursor
    {
      ok, cursor := SkipValueAt(b, cursor);
      if !ok { return; }
      cursor := SkipWhitespaceAt(b, cursor);
      ok, cursor := ConsumeAt(',', b, cursor);
      if ok {
        cursor := SkipWhitespaceAt(b, cursor);
        continue;
      }
      ok, cursor := ConsumeAt(']', b, cursor);
      return;
    }
  }

  /** A member's decoded name; the cursor moves to where its value starts. */
  method ReadNameAt(decode: string -> Option<string>, b: string, start: nat) returns (ok: bool, name: string, cursor: nat)
    requires start <= |b|
    ensures if ok then start < cursor <= |b| && ReadName(decode, b[start..]) == Some(Head(name, b[cursor..]))
      else ReadName(decode, b[start..]).None?
  {
    name := "";
    ok, cursor := SkipStringAt(b, start);
    if !ok { return; }
    CutAt(b, start, cursor);
    assert SkipString(b[start..]) == Some(b[cursor..]);
    var decoded := decode(b[start..cursor]);
    if decoded.None? { return false, name, cursor; }
    name := decoded.value;
    cursor := SkipWhitespaceAt(b, cursor);
    ok, cursor := ConsumeAt(':', b, cursor);
    if !ok { return; }
    cursor := SkipWhitespaceAt(b, cursor);
  }

  /** One member: its decoded name and the bounds of its value, which ends at the cursor. */
  method ReadEntryAt(decode: string -> Option<string>, b: string, start: nat)
    returns (ok: bool, name: string, valueStart: nat, cursor: nat)
    requires start <= |b|
    ensures if ok then start < valueStart <= cursor <= |b|
        && ReadEntry(decode, b[start..]) == Some(Entry(name, b[valueStart..cursor], b[cursor..]))
      else ReadEntry(decode, b[start..]).None?
  {
    cursor := start;
    ok, name, valueStart := ReadNameAt(decode, b, start);
    if !ok { return; }
    ok, cursor := SkipValueAt(b, valueStart);
    if !ok { return; }
    CutAt(b, valueStart, cursor);
  }

  /** The raw bytes of one top-level value, or nothing. */
  method ExtractAt(decode: string -> Option<string>, key: string, raw: string) returns (result: Option<string>)
    ensures result == Extract(decode, key, raw)
  {
    assert raw[0..] == raw;
    var cursor := SkipWhitespaceAt(raw, 0);
    var ok: bool;
    ok, cursor := ConsumeAt('{', raw, cursor);
    if !ok { return None; }
    cursor := SkipWhitespaceAt(raw, cursor);
    result := None;
    while cursor < |raw| && raw[cursor] != '}'
      invariant cursor <= |raw| && Extract(decode, key, raw) == Fields(decode, key, raw[cursor..], result)
      decreases |raw| - cursor
    {
      var name: string, valueStart: nat;
      ok, name, valueStart, cursor := ReadEntryAt(decode, raw, cursor);
      if !ok { return None; }
      if name == key {
        var value := raw[valueStart..cursor];
        result := if value == "null" then None else Some(value);
      }
      cursor := SkipWhitespaceAt(raw, cursor);
      ok, cursor := ConsumeAt(',', raw, cursor);
      if !ok { return; }
      cursor := SkipWhitespaceAt(raw, cursor);
    }
  }

  lemma CutAt(b: string, i: nat, j: nat)
    requires i <= j <= |b|
    ensures b[i..][..|b[i..]| - |b[j..]|] == b[i..j]
  {}
}
