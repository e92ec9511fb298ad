/** Lines of a PostgreSQL configuration file, as the operator takes them apart. */
module ConfigLines {

  /** White space as defined by Unicode, which is what gets trimmed. */
  predicate IsSpace(c: char) {
    c in "\t\n\r \U{0B}\U{0C}\U{85}\U{A0}\U{1680}\U{2028}\U{2029}\U{202F}\U{205F}\U{3000}" ||
    '\U{2000}' <= c <= '\U{200A}'
  }

  /** The same by code points. */
  lemma WhiteSpaceExactly(c: char)
    ensures IsSpace(c) <==>
      || 9 <= c as int <= 13 || 8192 <= c as int <= 8202
      || c as int in {32, 133, 160, 5760, 8232, 8233, 8239, 8287, 12288}
  {
  }

  function TrimLeft(s: string): string {
    if s != "" && IsSpace(s[0]) then TrimLeft(s[1..]) else s
  }

  function TrimRight(s: string): string {
    if s != "" && IsSpace(s[|s| - 1]) then TrimRight(s[..|s| - 1]) else s
  }

  function TrimSpace(s: string): string { TrimRight(TrimLeft(s)) }

  /** The part before the first equals sign, or everything when there is none. */
  function BeforeEquals(s: string): string {
    if s == "" || s[0] == '=' then "" else [s[0]] + BeforeEquals(s[1..])
  }

  /** The option a line sets. */
  function Key(line: string): string { TrimSpace(BeforeEquals(TrimSpace(line))) }

  /** An option name that can be recognised again once it is written to a line. */
  predicate IsOptionName(name: string) {
    '=' !in name && TrimSpace(name) == name
  }

  /** The line that sets `key`; the value has been quoted. */
  function Render(key: string, quoted: string): string { key + " = " + quoted }

  lemma {:induction false} TrimRightIsPrefix(s: string)
    ensures TrimRight(s) <= s
    ensures TrimRight(s) != "" ==> !IsSpace(TrimRight(s)[|TrimRight(s)| - 1])
    ensures forall i :: |TrimRight(s)| <= i < |s| ==> IsSpace(s[i])
  {
    if s != "" && IsSpace(s[|s| - 1]) {
      TrimRightIsPrefix(s[..|s| - 1]);
    }
  }

  lemma {:induction false} TrimLeftKeepsEnd(s: string)
    ensures TrimLeft(s) != "" ==> !IsSpace(TrimLeft(s)[0]) && TrimLeft(s)[|TrimLeft(s)| - 1] == s[|s| - 1]
  {
    if s != "" && IsSpace(s[0]) {
      TrimLeftKeepsEnd(s[1..]);
    }
  }

  /** A string that neither starts nor ends with white space is left alone. */
  lemma TrimmedIsFixed(s: string)
    requires s == "" || (!IsSpace(s[0]) && !IsSpace(s[|s| - 1]))
    ensures TrimSpace(s) == s
  {
  }

  lemma OptionNameEnds(name: string)
    requires IsOptionName(name) && name != ""
    ensures !IsSpace(name[0]) && !IsSpace(name[|name| - 1])
  {
    TrimRightIsPrefix(TrimLeft(name));
    TrimLeftKeepsEnd(name);
  }

  lemma {:induction false} BeforeEqualsSplits(a: string, b: string)
    requires '=' !in a
    ensures BeforeEquals(a + "=" + b) == a
  {
    var s := a + "=" + b;
    if a != "" {
      BeforeEqualsSplits(a[1..], b);
      assert s[1..] == a[1..] + "=" + b;
    }
  }

  /** What precedes the equals sign of a rendered line, once leading white space is gone. */
  function Margin(key: string): string { if key == "" then "" else key + " " }

  lemma RenderedTrimsTo(key: string, quoted: string)
    requires IsOptionName(key)
    ensures TrimLeft(Render(key, quoted)) == Margin(key) + "=" + (" " + quoted)
  {
    var line := Render(key, quoted);
    if key == "" {
      assert line == " " + ("=" + (" " + quoted));
      assert line[1..] == "=" + (" " + quoted);
    } else {
      OptionNameEnds(key);
      assert line == Margin(key) + "=" + (" " + quoted);
      assert line[0] == key[0];
    }
  }

  lemma MarginTrimsTo(key: string)
    requires IsOptionName(key)
    ensures TrimSpace(Margin(key)) == key && '=' !in Margin(key)
  {
    if key != "" {
      OptionNameEnds(key);
      var margin := Margin(key);
      assert margin[0] == key[0];
      assert margin[..|margin| - 1] == key;
    }
  }

  /** What is written for an option is read back as that option, whatever the value is. */
  lemma RenderedKey(key: string, quoted: string)
    requires IsOptionName(key)
    ensures Key(Render(key, quoted)) == key
  {
    var left := TrimLeft(Render(key, quoted));
    RenderedTrimsTo(key, quoted);
    MarginTrimsTo(key);
    TrimRightIsPrefix(left);
    var n := |Margin(key)|;
    assert left[n] == '=';
    var trimmed := TrimRight(left);
    assert trimmed == Margin(key) + "=" + trimmed[n + 1..];
    BeforeEqualsSplits(Margin(key), trimmed[n + 1..]);
  }
}
