// The scanning loop of scripts/check_errorcode_chains.py.
module SanitizerLoop {
  import opened Sanitizer
  import opened SanitizerModes

  // One lexeme, read from `text` at `i`, has been appended.
  lemma Advance(alnum: char -> bool, text: string, i: nat, lexeme: string)
    requires i < |text| && First(alnum, text[i..]) == lexeme
    ensures i + |lexeme| <= |text|
    ensures Sanitized(alnum, text[i..]) == lexeme + Sanitized(alnum, text[i + |lexeme|..])
  {
    SanitizedStep(alnum, text[i..], lexeme, text[i + |lexeme|..]);
  }

  method LineComment(alnum: char -> bool, text: string, start: nat) returns (blank: string, i: nat)
    requires start + 1 < |text| && text[start] == '/' && text[start + 1] == '/'
    ensures blank == First(alnum, text[start..]) && i == start + |blank|
  {
    ghost var s := text[start..];
    blank, i := "", start;
    while i < |text| && text[i] != '\n'
      invariant start <= i <= |text| && LineLength(s) == i - start + LineLength(text[i..])
      invariant blank == Blanks(text[start..i])
    {
      assert text[i..][1..] == text[i + 1..];
      blank := blank + " ";
      i := i + 1;
    }
    assert s[..i - start] == text[start..i];
  }

  lemma BlanksSnoc(text: string, a: nat, b: nat)
    requires a <= b < |text|
    ensures Blanks(text[a..b + 1]) == Blanks(text[a..b]) + [Blank(text[b])]
  {
  }

  method BlockComment(alnum: char -> bool, text: string, start: nat) returns (blank: string, i: nat)
    requires start + 1 < |text| && text[start] == '/' && text[start + 1] == '*'
    ensures blank == First(alnum, text[start..]) && i == start + |blank|
  {
    hide CommentBody, First, Blanks;
    var n := |text|;
    ghost var s := text[start..];
    assert s[2..] == text[start + 2..];
    blank, i := "  ", start + 2;
    BlanksNothing();
    assert text[start + 2..i] == "";
    while i + 1 < n && !(text[i] == '*' && text[i + 1] == '/')
      invariant start + 2 <= i <= n && CommentBody(s[2..]) == i - start - 2 + CommentBody(text[i..])
      invariant blank == "  " + Blanks(text[start + 2..i])
    {
      assert text[i..][1..] == text[i + 1..];
      CommentStep(text[i..]);
      BlanksSnoc(text, start + 2, i);
      blank := blank + [Blank(text[i])];
      i := i + 1;
    }
    CommentStops(text[i..]);
    assert s[2..CommentBody(s[2..]) + 2] == text[start + 2..i];
    FirstBlockIs(alnum, s);
    if i + 1 < n {
      blank := blank + "  ";
      i := i + 2;
    }
  }

  method StringLiteral(alnum: char -> bool, text: string, start: nat) returns (blank: string, i: nat)
    requires start < |text| && text[start] == '"'
    ensures blank == First(alnum, text[start..]) && i == start + |blank|
  {
    hide StringBody, First;
    var n := |text|;
    ghost var s := text[start..];
    assert s[1..] == text[start + 1..];
    blank, i := ['"'], start + 1;
    while i < n && text[i] != '"'
      invariant start + 1 <= i <= n && i == start + |blank|
      invariant blank + StringBody(text[i..]) == ['"'] + StringBody(s[1..])
    {
      StringStep(text[i..]);
      if text[i] == '\\' && i + 1 < n {
        assert text[i..][2..] == text[i + 2..];
        Grouped(blank, "  ", StringBody(text[i + 2..]));
        blank := blank + "  ";
        i := i + 2;
        continue;
      }
      assert text[i..][1..] == text[i + 1..];
      Grouped(blank, [Blank(text[i])], StringBody(text[i + 1..]));
      blank := blank + [Blank(text[i])];
      i := i + 1;
    }
    StringStops(text[i..]);
    assert blank + "" == ['"'] + StringBody(s[1..]);
    FirstStringIs(alnum, s);
    if i < n {
      blank := blank + ['"'];
      i := i + 1;
    }
  }

  // The end of the character literal that starts at `start`, or `start` for a lifetime.
  method CharLiteralEnd(alnum: char -> bool, text: string, start: nat) returns (end: nat)
    requires start < |text| && text[start] == '\''
    ensures end == start + CharLiteral(alnum, text[start..])
  {
    var n := |text|;
    ghost var s := text[start..];
    var j := start + 1;
    if j < n && text[j] == '\\' {
      j := j + 2;
    } else {
      assert s[1..] == text[j..];
      while j < n && IsWord(alnum, text[j])
        invariant start + 1 <= j <= n && WordLength(alnum, s[1..]) == j - start - 1 + WordLength(alnum, text[j..])
      {
        assert text[j..][1..] == text[j + 1..];
        j := j + 1;
      }
    }
    end := if j < n && text[j] == '\'' then j + 1 else start;
  }

  method Ordinary(alnum: char -> bool, text: string, start: nat) returns (blank: string, i: nat)
    requires start < |text| && text[start] != '"'
    requires text[start] == '/' ==> start + 1 == |text| || (text[start + 1] != '/' && text[start + 1] != '*')
    ensures blank == First(alnum, text[start..]) && i == start + |blank|
  {
    hide First, CharLiteral;
    OrdinaryFirst(alnum, text[start..]);
    if text[start] == '\'' {
      var end := CharLiteralEnd(alnum, text, start);
      if end > start {
        assert text[start..][..end - start] == text[start..end];
        return Blanks(text[start..end]), end;
      }
    }
    return [text[start]], start + 1;
  }

  method Sanitize(alnum: char -> bool, text: string) returns (out: string)
    ensures out == Sanitized(alnum, text)
    ensures ByClass(alnum, text, out)
  {
    hide ByClass;
    SanitizedByClass(alnum, text);
    hide Sanitized, First, CharLiteral, Blanks;
    out := "";
    var i, n := 0, |text|;
    assert text[0..] == text;
    while i < n
      invariant 0 <= i <= n
      invariant out + Sanitized(alnum, text[i..]) == Sanitized(alnum, text)
      decreases n - i
    {
      var c := text[i];
      var blank: string;
      ghost var start, had := i, out;
      if c == '/' && i + 1 < n && text[i + 1] == '/' {
        blank, i := LineComment(alnum, text, i);
      } else if c == '/' && i + 1 < n && text[i + 1] == '*' {
        blank, i := BlockComment(alnum, text, i);
      } else if c == '"' {
        blank, i := StringLiteral(alnum, text, i);
      } else {
        blank, i := Ordinary(alnum, text, i);
      }
      Advance(alnum, text, start, blank);
      out := out + blank;
      assert out + Sanitized(alnum, text[i..]) == had + (blank + Sanitized(alnum, text[i..]));
    }
    SanitizedNothing(alnum, text[i..]);
  }
}
