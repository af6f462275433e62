/** Python's str.strip family. */
module Text {
  import opened Splitting

  /** str.isspace for one character. */
  predicate IsSpace(c: char)
  {
    || '\t' <= c <= '\r' || '\U{1C}' <= c <= ' ' || c == '\U{85}' || c == '\U{A0}' || c == '\U{1680}'
    || '\U{2000}' <= c <= '\U{200A}' || c == '\U{2028}' || c == '\U{2029}' || c == '\U{202F}'
    || c == '\U{205F}' || c == '\U{3000}'
  }

  predicate IsNewline(c: char) { c == '\n' }

  function TrimStart(s: string, drop: char -> bool): string
  {
    if s != "" && drop(s[0]) then TrimStart(s[1..], drop) else s
  }

  function TrimEnd(s: string, drop: char -> bool): string
  {
    if s != "" && drop(s[|s| - 1]) then TrimEnd(s[..|s| - 1], drop) else s
  }

  function Trim(s: string, drop: char -> bool): string
  {
    TrimEnd(TrimStart(s, drop), drop)
  }

  /** s.strip() */
  function Strip(s: string): string { Trim(s, IsSpace) }

  /** text.replace("\r\n", "\n") */
  function Unix(s: string): string
  {
    if s == "" then ""
    else if |s| >= 2 && s[0] == '\r' && s[1] == '\n' then "\n" + Unix(s[2..])
    else [s[0]] + Unix(s[1..])
  }

  lemma {:induction false} UnixOfPlain(plain: string, rest: string)
    requires '\r' !in plain
    ensures Unix(plain + rest) == plain + Unix(rest)
  {
    if plain == "" {
      assert plain + rest == rest;
    } else {
      assert plain[0] in plain;
      assert (plain + rest)[1..] == plain[1..] + rest;
      UnixOfPlain(plain[1..], rest);
      assert [plain[0]] + (plain[1..] + Unix(rest)) == plain + Unix(rest);
    }
  }

  lemma UnixOfBreak(rest: string)
    ensures Unix("\r\n" + rest) == "\n" + Unix(rest)
  {
    assert ("\r\n" + rest)[2..] == rest;
  }

  lemma UnixOfLine(line: string, dos: string, unix: string, rest: string)
    requires '\r' !in line && Unix(dos + rest) == unix + Unix(rest)
    ensures Unix(line + "\r\n" + dos + rest) == line + "\n" + unix + Unix(rest)
  {
    UnixOfPlain(line, "\r\n" + (dos + rest));
    UnixOfBreak(dos + rest);
    Regrouped(line, "\r\n", dos, rest);
    Regrouped(line, "\n", unix, Unix(rest));
  }

  lemma Regrouped(a: string, b: string, c: string, d: string)
    ensures a + (b + (c + d)) == a + b + c + d
  {
  }

  lemma {:induction false} UnixOfLines(lines: seq<string>, rest: string)
    requires forall k :: 0 <= k < |lines| ==> '\r' !in lines[k]
    ensures Unix(Join(lines, "\r\n") + rest) == Join(lines, "\n") + Unix(rest)
  {
    if lines == [] {
      UnixOfPlain("", rest);
    } else if |lines| == 1 {
      UnixOfPlain(lines[0], rest);
    } else {
      UnixOfLines(lines[1..], rest);
      UnixOfLine(lines[0], Join(lines[1..], "\r\n"), Join(lines[1..], "\n"), rest);
    }
  }
}
