// The position-preserving lexer of scripts/check_errorcode_chains.py: comments, strings and
// character literals are blanked out, everything else keeps its place.
module Sanitizer {

  // Python's `str.isalnum`, of which only this much matters.
  ghost predicate WordClass(alnum: char -> bool) {
    !alnum('/') && !alnum('"') && !alnum('\'') && !alnum(' ')
  }

  predicate IsWord(alnum: char -> bool, c: char) {
    alnum(c) || c == '_'
  }

  function Blank(c: char): char {
    if c == '\n' then '\n' else ' '
  }

  function Blanks(s: string): (r: string)
    ensures |r| == |s| && forall k :: 0 <= k < |s| ==> r[k] == Blank(s[k])
  {
    seq(|s|, k requires 0 <= k < |s| => Blank(s[k]))
  }

  // ---------- the lexemes ----------

  // Length of the line that starts here, without its newline.
  function LineLength(s: string): (n: nat)
    ensures n <= |s|
  {
    if s == "" || s[0] == '\n' then 0 else 1 + LineLength(s[1..])
  }

  // Length of a block comment's body: up to the closing marker, or to the last character.
  function CommentBody(s: string): (n: nat)
    ensures n <= |s|
  {
    if |s| < 2 || (s[0] == '*' && s[1] == '/') then 0 else 1 + CommentBody(s[1..])
  }

  // The blanked body of a string literal; an escape covers two characters.
  function StringBody(s: string): (r: string)
    ensures |r| <= |s| && (|r| < |s| ==> s[|r|] == '"')
    ensures forall k :: 0 <= k < |r| ==> r[k] == ' ' || (r[k] == '\n' && s[k] == '\n')
  {
    if s == "" || s[0] == '"' then ""
    else if s[0] == '\\' && |s| > 1 then "  " + StringBody(s[2..])
    else [Blank(s[0])] + StringBody(s[1..])
  }

  function WordLength(alnum: char -> bool, s: string): (n: nat)
    ensures n <= |s| && (n < |s| ==> !IsWord(alnum, s[n])) && forall k :: 0 <= k < n ==> IsWord(alnum, s[k])
  {
    if s == "" || !IsWord(alnum, s[0]) then 0 else 1 + WordLength(alnum, s[1..])
  }

  // Length of the character literal that starts here; 0 if the quote starts a lifetime.
  function CharLiteral(alnum: char -> bool, s: string): (n: nat)
    requires s != ""
    ensures n <= |s|
  {
    var j := if |s| > 1 && s[1] == '\\' then 3 else 1 + WordLength(alnum, s[1..]);
    if j < |s| && s[j] == '\'' then j + 1 else 0
  }

  // The first lexeme, blanked. Its length is the number of characters it covers.
  function First(alnum: char -> bool, s: string): (r: string)
    requires s != ""
    ensures 0 < |r| <= |s|
  {
    if s[0] == '/' && |s| > 1 && s[1] == '/' then Blanks(s[..LineLength(s)])
    else if s[0] == '/' && |s| > 1 && s[1] == '*' then
      var n := CommentBody(s[2..]);
      "  " + Blanks(s[2..n + 2]) + if n + 3 < |s| then "  " else ""
    else if s[0] == '"' then
      var body := StringBody(s[1..]);
      ['"'] + body + if |body| + 1 < |s| then ['"'] else []
    else if s[0] == '\'' && CharLiteral(alnum, s) > 0 then Blanks(s[..CharLiteral(alnum, s)])
    else [s[0]]
  }

  function Sanitized(alnum: char -> bool, s: string): (r: string)
    ensures |r| == |s|
  {
    if s == "" then "" else
      var lexeme := First(alnum, s);
      lexeme + Sanitized(alnum, s[|lexeme|..])
  }

  // ---------- position-preserving and idempotent ----------

  lemma FirstPointwise(alnum: char -> bool, s: string)
    requires s != ""
    ensures forall k :: 0 <= k < |First(alnum, s)| ==> First(alnum, s)[k] == s[k] || First(alnum, s)[k] == ' '
  {
    if s[0] == '/' && |s| > 1 && s[1] == '/' {
    } else if s[0] == '/' && |s| > 1 && s[1] == '*' {
      var n := CommentBody(s[2..]);
      var inner := s[2..n + 2];
      assert forall k :: 0 <= k < n ==> inner[k] == s[k + 2];
    } else if s[0] == '"' {
      var body := StringBody(s[1..]);
      assert forall k :: 0 <= k < |body| ==> s[1..][k] == s[k + 1];
    }
  }

  lemma {:induction false} Pointwise(alnum: char -> bool, s: string)
    ensures forall k :: 0 <= k < |s| ==> Sanitized(alnum, s)[k] == s[k] || Sanitized(alnum, s)[k] == ' '
  {
    hide First;
    if s != "" {
      var n, out := |First(alnum, s)|, Sanitized(alnum, s);
      FirstPointwise(alnum, s);
      Pointwise(alnum, s[n..]);
      forall k | 0 <= k < |s| ensures out[k] == s[k] || out[k] == ' ' {
        if k < n {
          assert out[k] == First(alnum, s)[k];
        } else {
          assert s[n..][k - n] == s[k] && out[k] == Sanitized(alnum, s[n..])[k - n];
        }
      }
    }
  }

  lemma FirstSlash(alnum: char -> bool, s: string, k: nat)
    requires s != "" && k < |First(alnum, s)| && First(alnum, s)[k] == '/'
    ensures k == 0 && |First(alnum, s)| == 1 && (|s| > 1 ==> s[1] != '/' && s[1] != '*')
  {
  }

  // No comment opens anywhere in the result.
  lemma {:induction false} NoCommentsLeft(alnum: char -> bool, s: string, k: nat)
    requires k + 1 < |s| && Sanitized(alnum, s)[k] == '/'
    ensures Sanitized(alnum, s)[k + 1] != '/' && Sanitized(alnum, s)[k + 1] != '*'
  {
    hide First;
    var n := |First(alnum, s)|;
    if k < n {
      FirstSlash(alnum, s, k);
      Pointwise(alnum, s);
    } else {
      NoCommentsLeft(alnum, s[n..], k - n);
    }
  }

  predicate IsBlank(s: string) {
    forall k :: 0 <= k < |s| ==> s[k] == ' ' || s[k] == '\n'
  }

  lemma BlankIsPlain(alnum: char -> bool, c: char, t: string)
    requires c == ' ' || c == '\n'
    ensures Sanitized(alnum, [c] + t) == [c] + Sanitized(alnum, t)
  {
    assert First(alnum, [c] + t) == [c];
    assert ([c] + t)[1..] == t;
  }

  lemma {:induction false} BlankPrefix(alnum: char -> bool, blank: string, t: string)
    requires IsBlank(blank)
    ensures Sanitized(alnum, blank + t) == blank + Sanitized(alnum, t)
  {
    hide Sanitized, First;
    if blank == "" {
      assert blank + t == t;
    } else {
      BlankIsPlain(alnum, blank[0], blank[1..] + t);
      BlankPrefix(alnum, blank[1..], t);
      assert blank + t == [blank[0]] + (blank[1..] + t);
    }
  }

  lemma {:induction false} BlankStringBody(blank: string, t: string)
    requires IsBlank(blank) && (t == "" || t[0] == '"')
    ensures StringBody(blank + t) == blank
  {
    if blank == "" {
      assert blank + t == t;
    } else {
      assert (blank + t)[1..] == blank[1..] + t;
      BlankStringBody(blank[1..], t);
      assert blank == [blank[0]] + blank[1..];
    }
  }

  // Word characters come through unchanged.
  lemma {:induction false} WordsKept(alnum: char -> bool, s: string, n: nat)
    requires WordClass(alnum) && n <= |s| && forall k :: 0 <= k < n ==> IsWord(alnum, s[k])
    ensures Sanitized(alnum, s)[..n] == s[..n]
  {
    if n > 0 {
      assert First(alnum, s) == [s[0]];
      WordsKept(alnum, s[1..], n - 1);
      assert s[1..][..n - 1] == s[1..n];
      assert Sanitized(alnum, s)[1..] == Sanitized(alnum, s[1..]);
    }
  }

  lemma WordLengthIs(alnum: char -> bool, s: string, n: nat)
    requires n <= |s| && (n < |s| ==> !IsWord(alnum, s[n])) && forall k :: 0 <= k < n ==> IsWord(alnum, s[k])
    ensures WordLength(alnum, s) == n
  {
  }

  // A quote that starts no character literal still starts none once what follows is sanitized.
  lemma LifetimeKept(alnum: char -> bool, rest: string)
    requires WordClass(alnum) && CharLiteral(alnum, ['\''] + rest) == 0
    ensures CharLiteral(alnum, ['\''] + Sanitized(alnum, rest)) == 0
  {
    var out := Sanitized(alnum, rest);
    var s, t := ['\''] + rest, ['\''] + out;
    assert s[1..] == rest && t[1..] == out;
    Pointwise(alnum, rest);
    if rest != "" && rest[0] == '\\' {
      assert First(alnum, rest) == ['\\'];
    } else {
      var n := WordLength(alnum, rest);
      WordsKept(alnum, rest, n);
      assert forall k :: 0 <= k < n ==> out[k] == out[..n][k] == rest[..n][k];
      WordLengthIs(alnum, out, n);
    }
  }

  lemma PlainKept(alnum: char -> bool, s: string)
    requires WordClass(alnum) && s != "" && First(alnum, s) == [s[0]] && s[0] != '"'
    ensures First(alnum, [s[0]] + Sanitized(alnum, s[1..])) == [s[0]]
  {
    var rest := s[1..];
    var t := [s[0]] + Sanitized(alnum, rest);
    assert s == [s[0]] + rest;
    Pointwise(alnum, rest);
    if s[0] == '\'' {
      assert CharLiteral(alnum, s) == 0;
      LifetimeKept(alnum, rest);
    }
  }

  lemma SanitizedStep(alnum: char -> bool, s: string, lexeme: string, rest: string)
    requires s != "" && First(alnum, s) == lexeme && s[|lexeme|..] == rest
    ensures Sanitized(alnum, s) == lexeme + Sanitized(alnum, rest)
  {
  }

  lemma StringKept(alnum: char -> bool, s: string, out: string)
    requires s != "" && s[0] == '"' && (|First(alnum, s)| == |s| ==> out == "")
    ensures First(alnum, First(alnum, s) + out) == First(alnum, s)
  {
    hide Sanitized;
    var lexeme := First(alnum, s);
    var t := lexeme + out;
    var body := StringBody(s[1..]);
    if |body| + 1 < |s| {
      assert t[1..] == body + (['"'] + out);
      BlankStringBody(body, ['"'] + out);
    } else {
      assert t[1..] == body + "";
      BlankStringBody(body, "");
    }
  }

  lemma BlankOrPlain(alnum: char -> bool, s: string)
    requires s != "" && s[0] != '"'
    ensures IsBlank(First(alnum, s)) || First(alnum, s) == [s[0]]
  {
  }

  lemma {:induction false} Idempotent(alnum: char -> bool, s: string)
    requires WordClass(alnum)
    ensures Sanitized(alnum, Sanitized(alnum, s)) == Sanitized(alnum, s)
  {
    hide First, IsBlank, WordClass;
    if s != "" {
      var lexeme := First(alnum, s);
      var rest := s[|lexeme|..];
      var out := Sanitized(alnum, rest);
      Idempotent(alnum, rest);
      SanitizedStep(alnum, s, lexeme, rest);
      var t := lexeme + out;
      if s[0] == '"' {
        StringKept(alnum, s, out);
        SanitizedStep(alnum, t, lexeme, out);
      } else {
        BlankOrPlain(alnum, s);
        if IsBlank(lexeme) {
          BlankPrefix(alnum, lexeme, out);
        } else {
          PlainKept(alnum, s);
          SanitizedStep(alnum, t, lexeme, out);
        }
      }
    }
  }

  // ---------- newlines ----------

  ghost predicate KeepsNewlines(s: string, r: string)
    requires |r| == |s|
  {
    forall k :: 0 <= k < |s| && s[k] == '\n' ==> r[k] == '\n'
  }

  // A backslash escapes a newline inside the string literal whose body starts here.
  predicate EscapesNewline(s: string) {
    if s == "" || s[0] == '"' then false
    else if s[0] == '\\' && |s| > 1 then s[1] == '\n' || EscapesNewline(s[2..])
    else EscapesNewline(s[1..])
  }

  // Some string literal of the text continues a line with a backslash.
  predicate HasContinuation(alnum: char -> bool, s: string)
    decreases |s|
  {
    s != "" && ((s[0] == '"' && EscapesNewline(s[1..])) || HasContinuation(alnum, s[|First(alnum, s)|..]))
  }

  lemma KeepsConcat(a: string, b: string, c: string, d: string)
    requires |a| == |c| && |b| == |d|
    ensures KeepsNewlines(a + b, c + d) <==> KeepsNewlines(a, c) && KeepsNewlines(b, d)
  {
    assert forall k :: 0 <= k < |a| ==> (a + b)[k] == a[k] && (c + d)[k] == c[k];
    assert forall k :: 0 <= k < |b| ==> (a + b)[|a| + k] == b[k] && (c + d)[|a| + k] == d[k];
  }

  lemma BlanksKeep(s: string)
    ensures KeepsNewlines(s, Blanks(s))
  {
  }

  lemma {:induction false} StringNewlines(s: string)
    ensures KeepsNewlines(s[..|StringBody(s)|], StringBody(s)) <==> !EscapesNewline(s)
  {
    hide KeepsNewlines;
    var body := StringBody(s);
    if s == "" || s[0] == '"' {
      assert s[..0] == "";
      BlanksKeep("");
    } else {
      var head := if s[0] == '\\' && |s| > 1 then "  " else [Blank(s[0])];
      var n := |head|;
      StringNewlines(s[n..]);
      assert body == head + StringBody(s[n..]);
      assert s[..|body|] == s[..n] + s[n..][..|StringBody(s[n..])|];
      KeepsConcat(s[..n], s[n..][..|StringBody(s[n..])|], head, StringBody(s[n..]));
      HeadKeeps(s[..n], head);
    }
  }

  lemma HeadKeeps(s: string, r: string)
    requires |s| == |r| && (|s| == 1 || |s| == 2)
    ensures |s| == 1 && r[0] == Blank(s[0]) ==> KeepsNewlines(s, r)
    ensures |s| == 2 && r == "  " && s[0] == '\\' ==> (KeepsNewlines(s, r) <==> s[1] != '\n')
    ensures |s| == 2 && r == "  " && s[0] != '\n' && s[1] != '\n' ==> KeepsNewlines(s, r)
    ensures s[0] != '\n' && |s| == 1 ==> KeepsNewlines(s, r)
  {
  }

  lemma FirstNewlines(alnum: char -> bool, s: string)
    requires s != ""
    ensures KeepsNewlines(s[..|First(alnum, s)|], First(alnum, s)) <==> !(s[0] == '"' && EscapesNewline(s[1..]))
  {
    hide KeepsNewlines, EscapesNewline, StringBody;
    var lexeme := First(alnum, s);
    var n := |lexeme|;
    if s[0] == '/' && |s| > 1 && s[1] == '/' {
      BlanksKeep(s[..n]);
    } else if s[0] == '/' && |s| > 1 && s[1] == '*' {
      var m := CommentBody(s[2..]);
      CommentCloses(s[2..]);
      HeadKeeps(s[..2], "  ");
      BlanksKeep(s[2..m + 2]);
      KeepsConcat(s[..2], s[2..m + 2], "  ", Blanks(s[2..m + 2]));
      assert s[..m + 2] == s[..2] + s[2..m + 2];
      if m + 3 < |s| {
        assert s[m + 2..m + 4] == [s[2..][m], s[2..][m + 1]];
        HeadKeeps(s[m + 2..m + 4], "  ");
        KeepsConcat(s[..m + 2], s[m + 2..m + 4], "  " + Blanks(s[2..m + 2]), "  ");
        assert s[..n] == s[..m + 2] + s[m + 2..m + 4];
      } else {
        assert s[..n] == s[..m + 2] && lexeme == "  " + Blanks(s[2..m + 2]);
      }
    } else if s[0] == '"' {
      var body := StringBody(s[1..]);
      var m := |body| + 1;
      StringNewlines(s[1..]);
      HeadKeeps(s[..1], ['"']);
      KeepsConcat(s[..1], s[1..][..|body|], ['"'], body);
      assert s[..m] == s[..1] + s[1..][..|body|];
      if m == |s| {
        assert s[..n] == s[..m] && lexeme == ['"'] + body;
      } else {
        assert s[m] == s[1..][|body|];
        HeadKeeps(s[m..m + 1], ['"']);
        KeepsConcat(s[..m], s[m..m + 1], ['"'] + body, ['"']);
        assert s[..n] == s[..m] + s[m..m + 1];
      }
    } else if s[0] == '\'' && CharLiteral(alnum, s) > 0 {
      BlanksKeep(s[..n]);
    } else {
      KeepsSelf(s[..1]);
      assert s[..1] == lexeme;
    }
  }

  lemma KeepsSelf(s: string)
    ensures KeepsNewlines(s, s)
  {
  }

  lemma {:induction false} CommentCloses(s: string)
    ensures var n := CommentBody(s); n + 1 < |s| ==> s[n] == '*' && s[n + 1] == '/'
  {
    if !(|s| < 2 || (s[0] == '*' && s[1] == '/')) {
      CommentCloses(s[1..]);
    }
  }

  // Line structure survives exactly when no string literal continues a line with a backslash.
  lemma {:induction false} NewlinesKept(alnum: char -> bool, s: string)
    ensures KeepsNewlines(s, Sanitized(alnum, s)) <==> !HasContinuation(alnum, s)
  {
    hide First, EscapesNewline, KeepsNewlines, Sanitized;
    if s == "" {
      SanitizedNothing(alnum, s);
      BlanksKeep(s);
    } else {
      var lexeme := First(alnum, s);
      var n, rest := |lexeme|, s[|lexeme|..];
      SanitizedStep(alnum, s, lexeme, rest);
      FirstNewlines(alnum, s);
      NewlinesKept(alnum, rest);
      KeepsConcat(s[..n], rest, lexeme, Sanitized(alnum, rest));
      assert s == s[..n] + rest;
    }
  }

  lemma SanitizedNothing(alnum: char -> bool, s: string)
    requires s == ""
    ensures Sanitized(alnum, s) == s == Blanks(s)
  {
  }

  // A continued string literal loses its newline.
  lemma ContinuationExample(alnum: char -> bool)
    ensures !KeepsNewlines("\"\\\n\"", Sanitized(alnum, "\"\\\n\""))
  {
    var s := "\"\\\n\"";
    assert s[1] == '\\' && s[2] == '\n';
    assert EscapesNewline(s[1..]);
    NewlinesKept(alnum, s);
  }

  // ---------- one step of each lexeme ----------

  lemma CommentStep(s: string)
    requires |s| >= 2 && !(s[0] == '*' && s[1] == '/')
    ensures CommentBody(s) == 1 + CommentBody(s[1..])
  {
  }

  lemma CommentStops(s: string)
    requires |s| < 2 || (s[0] == '*' && s[1] == '/')
    ensures CommentBody(s) == 0
  {
  }

  lemma StringStep(s: string)
    requires s != "" && s[0] != '"'
    ensures StringBody(s) ==
      if s[0] == '\\' && |s| > 1 then "  " + StringBody(s[2..]) else [Blank(s[0])] + StringBody(s[1..])
  {
  }

  lemma StringStops(s: string)
    requires s == "" || s[0] == '"'
    ensures StringBody(s) == ""
  {
  }

  lemma OrdinaryFirst(alnum: char -> bool, s: string)
    requires s != "" && s[0] != '"' && (s[0] == '/' ==> |s| < 2 || (s[1] != '/' && s[1] != '*'))
    ensures First(alnum, s) ==
      if s[0] == '\'' && CharLiteral(alnum, s) > 0 then Blanks(s[..CharLiteral(alnum, s)]) else [s[0]]
  {
  }
}
