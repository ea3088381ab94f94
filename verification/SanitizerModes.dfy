// What each character of a source text is to the lexer of scripts/check_errorcode_chains.py, by a
// machine that reads from left to right, and which characters the sanitizer therefore keeps.
module SanitizerModes {
  import opened Sanitizer

  // What is being read when a character comes.
  datatype Mode = Code | Line | Open | Block | Close | Body | Escape | Literal(left: nat)

  datatype Class = Plain | Quote | InLineComment | InBlockComment | InString | Escaped | InCharacter

  predicate Starts(s: string, c: char, d: char) {
    |s| > 1 && s[0] == c && s[1] == d
  }

  // The quote at the start opens a character literal whose closing quote is at `m`: an escape of one
  // character, or a run of word characters.
  ghost predicate LiteralTo(alnum: char -> bool, s: string, m: int) {
    && 0 < m < |s| && s[0] == '\'' && s[m] == '\''
    && (if s[1] == '\\' then m == 3
        else !IsWord(alnum, s[m]) && forall i :: 1 <= i < m ==> IsWord(alnum, s[i]))
  }

  // A block comment goes on while two characters are left.
  function Inside(s: string): Mode {
    if |s| < 2 then Code else Block
  }

  // The mode after the first character of `s`.
  ghost function Step(alnum: char -> bool, s: string, mode: Mode): Mode
    requires s != ""
  {
    match mode
    case Code =>
      if Starts(s, '/', '/') then Line
      else if Starts(s, '/', '*') then Open
      else if s[0] == '"' then Body
      else if m :| LiteralTo(alnum, s, m) then Literal(m)
      else Code
    case Line => if |s| > 1 && s[1] == '\n' then Code else Line
    case Open => Inside(s[1..])
    case Block => if Starts(s, '*', '/') then Close else Inside(s[1..])
    case Close => Code
    case Body => if s[0] == '"' then Code else if s[0] == '\\' && |s| > 1 then Escape else Body
    case Escape => Body
    case Literal(left) => if left <= 1 then Code else Literal(left - 1)
  }

  // What the first character of `s` is.
  ghost function ClassOf(alnum: char -> bool, s: string, mode: Mode): Class
    requires s != ""
  {
    match mode
    case Code =>
      if Starts(s, '/', '/') then InLineComment
      else if Starts(s, '/', '*') then InBlockComment
      else if s[0] == '"' then Quote
      else if exists m :: LiteralTo(alnum, s, m) then InCharacter
      else Plain
    case Line => InLineComment
    case Open => InBlockComment
    case Block => InBlockComment
    case Close => InBlockComment
    case Body => if s[0] == '"' then Quote else if s[0] == '\\' && |s| > 1 then Escaped else InString
    case Escape => Escaped
    case Literal(_) => InCharacter
  }

  // The mode in which character `k` is read.
  ghost function ModeAt(alnum: char -> bool, s: string, mode: Mode, k: nat): Mode
    requires k <= |s|
  {
    if k == 0 then mode else Step(alnum, s[k - 1..], ModeAt(alnum, s, mode, k - 1))
  }

  ghost function ClassAt(alnum: char -> bool, s: string, k: nat): Class
    requires k < |s|
  {
    ClassOf(alnum, s[k..], ModeAt(alnum, s, Code, k))
  }

  // Code and the quotes of strings are kept. Anything else is blanked, a newline only behind a backslash.
  function Shown(kind: Class, c: char): char {
    match kind
    case Plain => c
    case Quote => c
    case Escaped => ' '
    case _ => if c == '\n' then '\n' else ' '
  }

  ghost function Scanned(alnum: char -> bool, s: string, mode: Mode): (r: string)
    ensures |r| == |s|
  {
    if s == "" then ""
    else [Shown(ClassOf(alnum, s, mode), s[0])] + Scanned(alnum, s[1..], Step(alnum, s, mode))
  }

  lemma {:induction false} ModeShift(alnum: char -> bool, s: string, mode: Mode, k: nat)
    requires k < |s|
    ensures ModeAt(alnum, s, mode, k + 1) == ModeAt(alnum, s[1..], Step(alnum, s, mode), k)
  {
    hide Step;
    if k > 0 {
      ModeShift(alnum, s, mode, k - 1);
      assert s[1..][k - 1..] == s[k..];
    } else {
      assert s[0..] == s;
    }
  }

  lemma {:induction false} ScannedAt(alnum: char -> bool, s: string, mode: Mode, k: nat)
    requires k < |s|
    ensures Scanned(alnum, s, mode)[k] == Shown(ClassOf(alnum, s[k..], ModeAt(alnum, s, mode, k)), s[k])
  {
    hide Step, ClassOf, Shown;
    if k > 0 {
      ScannedAt(alnum, s[1..], Step(alnum, s, mode), k - 1);
      ModeShift(alnum, s, mode, k - 1);
      assert s[1..][k - 1..] == s[k..] && s[1..][k - 1] == s[k];
    } else {
      assert s[0..] == s;
    }
  }

  lemma ScannedStep(alnum: char -> bool, s: string, mode: Mode)
    requires s != ""
    ensures Scanned(alnum, s, mode)
      == [Shown(ClassOf(alnum, s, mode), s[0])] + Scanned(alnum, s[1..], Step(alnum, s, mode))
  {
  }

  lemma ScannedNothing(alnum: char -> bool, mode: Mode)
    ensures Scanned(alnum, "", mode) == ""
  {
  }

  // ---------- the lexemes, character by character ----------

  lemma BlanksStep(s: string)
    requires s != ""
    ensures Blanks(s) == [Blank(s[0])] + Blanks(s[1..])
  {
  }

  // The rest of a line comment, from a character of it that is no newline.
  lemma {:induction false} ScanLine(alnum: char -> bool, s: string)
    requires s != "" && s[0] != '\n'
    ensures var n := LineLength(s);
      Scanned(alnum, s, Line) == Blanks(s[..n]) + Scanned(alnum, s[n..], Code)
  {
    hide Scanned, Blanks;
    var n, rest := LineLength(s), s[1..];
    ScannedStep(alnum, s, Line);
    BlanksStep(s[..n]);
    assert s[..n][1..] == rest[..n - 1] && s[n..] == rest[n - 1..];
    if rest == "" || rest[0] == '\n' {
      assert rest[..0] == "" && s[1..] == rest;
      BlanksNothing();
      ScannedAny(alnum, rest, Step(alnum, s, Line));
    } else {
      ScanLine(alnum, rest);
      assert [Blank(s[0])] + (Blanks(rest[..n - 1]) + Scanned(alnum, rest[n - 1..], Code))
          == [Blank(s[0])] + Blanks(rest[..n - 1]) + Scanned(alnum, rest[n - 1..], Code);
    }
  }

  lemma BlanksNothing()
    ensures Blanks("") == ""
  {
  }

  lemma ScannedAny(alnum: char -> bool, s: string, mode: Mode)
    ensures s == "" ==> Scanned(alnum, s, mode) == Scanned(alnum, s, Code)
  {
  }

  lemma Grouped(a: string, b: string, c: string)
    ensures a + (b + c) == a + b + c
  {
  }

  // What comes after `n` characters of a block comment's body: its closing marker, if there is one, and the code.
  ghost function CommentTail(alnum: char -> bool, s: string, n: nat): string
    requires n <= |s|
  {
    if n + 1 < |s| then "  " + Scanned(alnum, s[n + 2..], Code) else Scanned(alnum, s[n..], Code)
  }

  lemma TailShift(alnum: char -> bool, s: string, n: nat)
    requires 0 < n <= |s|
    ensures CommentTail(alnum, s, n) == CommentTail(alnum, s[1..], n - 1)
  {
    hide Scanned;
    assert s[n..] == s[1..][n - 1..];
    if n + 1 < |s| { assert s[n + 2..] == s[1..][n + 1..]; }
  }

  // The rest of a block comment.
  lemma {:induction false} ScanBlock(alnum: char -> bool, s: string)
    ensures var n := CommentBody(s); Scanned(alnum, s, Inside(s)) == Blanks(s[..n]) + CommentTail(alnum, s, n)
  {
    hide Scanned, Blanks, CommentBody, CommentTail;
    if |s| < 2 || Starts(s, '*', '/') {
      CommentStops(s);
      CommentEnds(alnum, s);
    } else {
      var n, rest := CommentBody(s), s[1..];
      CommentStep(s);
      ScannedStep(alnum, s, Block);
      ScanBlock(alnum, rest);
      BlanksStep(s[..n]);
      TailShift(alnum, s, n);
      assert s[..n][1..] == rest[..n - 1];
      Grouped([Blank(s[0])], Blanks(rest[..n - 1]), CommentTail(alnum, rest, n - 1));
    }
  }

  lemma CommentEnds(alnum: char -> bool, s: string)
    requires |s| < 2 || Starts(s, '*', '/')
    ensures Scanned(alnum, s, Inside(s)) == Blanks(s[..0]) + CommentTail(alnum, s, 0)
  {
    hide Scanned, Blanks;
    BlanksNothing();
    assert s[..0] == "" && s[0..] == s;
    if |s| >= 2 {
      ClosingMarker(alnum, s);
    }
  }

  lemma ClosingMarker(alnum: char -> bool, s: string)
    requires Starts(s, '*', '/')
    ensures Scanned(alnum, s, Block) == "  " + Scanned(alnum, s[2..], Code)
  {
    hide Scanned;
    ScannedStep(alnum, s, Block);
    ScannedStep(alnum, s[1..], Close);
    assert s[1..][1..] == s[2..];
  }

  // The body of a string literal.
  lemma {:induction false} ScanString(alnum: char -> bool, s: string)
    ensures Scanned(alnum, s, Body) == StringBody(s) + Scanned(alnum, s[|StringBody(s)|..], Body)
  {
    hide Scanned, StringBody;
    if s == "" || s[0] == '"' {
      StringStops(s);
      assert s[0..] == s;
    } else {
      StringStep(s);
      ScannedStep(alnum, s, Body);
      if s[0] == '\\' && |s| > 1 {
        ScannedStep(alnum, s[1..], Escape);
        assert s[1..][1..] == s[2..];
        ScanString(alnum, s[2..]);
        var n := |StringBody(s[2..])|;
        assert s[2..][n..] == s[n + 2..];
        Grouped("  ", StringBody(s[2..]), Scanned(alnum, s[n + 2..], Body));
        Grouped(" ", " ", Scanned(alnum, s[2..], Body));
      } else {
        ScanString(alnum, s[1..]);
        var n := |StringBody(s[1..])|;
        assert s[1..][n..] == s[n + 1..];
        Grouped([Blank(s[0])], StringBody(s[1..]), Scanned(alnum, s[n + 1..], Body));
      }
    }
  }

  // The rest of a character literal.
  lemma {:induction false} ScanLiteral(alnum: char -> bool, s: string, left: nat)
    requires 0 < left <= |s|
    ensures Scanned(alnum, s, Literal(left)) == Blanks(s[..left]) + Scanned(alnum, s[left..], Code)
  {
    hide Scanned, Blanks;
    ScannedStep(alnum, s, Literal(left));
    BlanksStep(s[..left]);
    assert s[..left][1..] == s[1..][..left - 1] && s[1..][left - 1..] == s[left..];
    if left == 1 {
      BlanksNothing();
      assert s[1..][..0] == "";
    } else {
      ScanLiteral(alnum, s[1..], left - 1);
      Grouped([Blank(s[0])], Blanks(s[1..][..left - 1]), Scanned(alnum, s[left..], Code));
    }
  }

  lemma LiteralIs(alnum: char -> bool, s: string)
    requires s != "" && s[0] == '\''
    ensures var n := CharLiteral(alnum, s); forall m :: LiteralTo(alnum, s, m) <==> n > 0 && m == n - 1
  {
    if |s| > 1 && s[1] != '\\' {
      var w := WordLength(alnum, s[1..]);
      assert forall i :: 0 <= i < |s| - 1 ==> s[1..][i] == s[i + 1];
      forall m | LiteralTo(alnum, s, m) ensures m == w + 1 {
        WordLengthIs(alnum, s[1..], m - 1);
      }
    }
  }

  // ---------- lexemes and modes agree ----------

  lemma ScanFirst(alnum: char -> bool, s: string)
    requires s != ""
    ensures Scanned(alnum, s, Code) == First(alnum, s) + Scanned(alnum, s[|First(alnum, s)|..], Code)
  {
    hide Scanned, CharLiteral, LiteralTo;
    if Starts(s, '/', '/') {
      FirstLine(alnum, s);
    } else if Starts(s, '/', '*') {
      FirstBlock(alnum, s);
    } else if s[0] == '"' {
      FirstString(alnum, s);
    } else if s[0] == '\'' {
      FirstQuote(alnum, s);
    } else {
      FirstPlain(alnum, s);
    }
  }

  lemma FirstLine(alnum: char -> bool, s: string)
    requires Starts(s, '/', '/')
    ensures Scanned(alnum, s, Code) == First(alnum, s) + Scanned(alnum, s[|First(alnum, s)|..], Code)
  {
    hide Scanned, Blanks;
    var n := LineLength(s);
    ScannedStep(alnum, s, Code);
    ScanLine(alnum, s[1..]);
    BlanksStep(s[..n]);
    assert s[..n][1..] == s[1..][..n - 1] && s[1..][n - 1..] == s[n..];
    Grouped([Blank(s[0])], Blanks(s[1..][..n - 1]), Scanned(alnum, s[n..], Code));
  }

  lemma FirstBlockIs(alnum: char -> bool, s: string)
    requires Starts(s, '/', '*')
    ensures var n := CommentBody(s[2..]);
      && First(alnum, s) == "  " + Blanks(s[2..n + 2]) + (if n + 3 < |s| then "  " else "")
      && |First(alnum, s)| == if n + 3 < |s| then n + 4 else n + 2
  {
  }

  lemma FourParts(b: string, t: string)
    ensures [' '] + ([' '] + (b + ("  " + t))) == ("  " + b + "  ") + t
    ensures [' '] + ([' '] + (b + t)) == ("  " + b + "") + t
  {
  }

  lemma FirstBlock(alnum: char -> bool, s: string)
    requires Starts(s, '/', '*')
    ensures Scanned(alnum, s, Code) == First(alnum, s) + Scanned(alnum, s[|First(alnum, s)|..], Code)
  {
    hide Scanned, Blanks, CommentBody, First;
    var n := CommentBody(s[2..]);
    FirstBlockIs(alnum, s);
    ScannedStep(alnum, s, Code);
    ScannedStep(alnum, s[1..], Open);
    assert s[1..][1..] == s[2..];
    ScanBlock(alnum, s[2..]);
    assert s[2..][..n] == s[2..n + 2];
    if n + 3 < |s| {
      assert s[2..][n + 2..] == s[n + 4..];
      FourParts(Blanks(s[2..n + 2]), Scanned(alnum, s[n + 4..], Code));
    } else {
      assert s[2..][n..] == s[n + 2..];
      FourParts(Blanks(s[2..n + 2]), Scanned(alnum, s[n + 2..], Code));
    }
  }

  lemma FirstStringIs(alnum: char -> bool, s: string)
    requires s != "" && s[0] == '"'
    ensures var body := StringBody(s[1..]);
      && First(alnum, s) == ['"'] + body + (if |body| + 1 < |s| then ['"'] else [])
      && |body| < |s| && (|body| + 1 < |s| ==> s[|body| + 1] == '"')
  {
  }

  lemma FirstString(alnum: char -> bool, s: string)
    requires s != "" && s[0] == '"'
    ensures Scanned(alnum, s, Code) == First(alnum, s) + Scanned(alnum, s[|First(alnum, s)|..], Code)
  {
    hide Scanned, StringBody, First;
    var body := StringBody(s[1..]);
    var n := |body| + 1;
    FirstStringIs(alnum, s);
    ScannedStep(alnum, s, Code);
    ScanString(alnum, s[1..]);
    assert s[1..][|body|..] == s[n..];
    Grouped(['"'], body, Scanned(alnum, s[n..], Body));
    if n == |s| {
      assert ['"'] + body + [] == ['"'] + body;
      ScannedAny(alnum, s[n..], Body);
    } else {
      ScannedStep(alnum, s[n..], Body);
      assert s[n..][1..] == s[n + 1..];
      Grouped(['"'] + body, ['"'], Scanned(alnum, s[n + 1..], Code));
    }
  }

  lemma FirstQuote(alnum: char -> bool, s: string)
    requires s != "" && s[0] == '\''
    ensures Scanned(alnum, s, Code) == First(alnum, s) + Scanned(alnum, s[|First(alnum, s)|..], Code)
  {
    hide Scanned, First, CharLiteral, LiteralTo, Blanks;
    OrdinaryFirst(alnum, s);
    LiteralIs(alnum, s);
    ScannedStep(alnum, s, Code);
    var n := CharLiteral(alnum, s);
    if n > 0 {
      assert LiteralTo(alnum, s, n - 1);
      LiteralLonger(alnum, s, n - 1);
      ScanLiteral(alnum, s[1..], n - 1);
      BlanksStep(s[..n]);
      assert s[..n][1..] == s[1..][..n - 1] && s[1..][n - 1..] == s[n..];
      Grouped([Blank(s[0])], Blanks(s[1..][..n - 1]), Scanned(alnum, s[n..], Code));
    } else {
      assert !exists m :: LiteralTo(alnum, s, m);
    }
  }

  lemma LiteralLonger(alnum: char -> bool, s: string, m: int)
    requires LiteralTo(alnum, s, m)
    ensures 0 < m < |s|
  {
  }

  lemma FirstPlain(alnum: char -> bool, s: string)
    requires s != "" && !Starts(s, '/', '/') && !Starts(s, '/', '*') && s[0] != '"' && s[0] != '\''
    ensures Scanned(alnum, s, Code) == First(alnum, s) + Scanned(alnum, s[|First(alnum, s)|..], Code)
  {
    hide Scanned;
    ScannedStep(alnum, s, Code);
    assert forall m :: !LiteralTo(alnum, s, m);
  }

  lemma {:induction false} SanitizedIsScanned(alnum: char -> bool, s: string)
    ensures Sanitized(alnum, s) == Scanned(alnum, s, Code)
  {
    hide Scanned, First;
    if s == "" {
      ScannedNothing(alnum, Code);
    } else {
      ScanFirst(alnum, s);
      SanitizedIsScanned(alnum, s[|First(alnum, s)|..]);
    }
  }

  // ---------- which characters are kept ----------

  // Every character comes out as its class says: code and the quotes of strings are kept, and all else is
  // blank, where a newline is kept too unless a backslash stands before it in a string.
  lemma Classified(alnum: char -> bool, s: string, k: nat)
    requires k < |s|
    ensures Sanitized(alnum, s)[k] == Shown(ClassAt(alnum, s, k), s[k])
  {
    hide Shown, ClassOf, Sanitized;
    SanitizedIsScanned(alnum, s);
    ScannedAt(alnum, s, Code, k);
  }

  ghost predicate ByClass(alnum: char -> bool, s: string, out: string) {
    |out| == |s| && forall k :: 0 <= k < |s| ==> out[k] == Shown(ClassAt(alnum, s, k), s[k])
  }

  lemma SanitizedByClass(alnum: char -> bool, s: string)
    ensures ByClass(alnum, s, Sanitized(alnum, s))
  {
    hide Shown, ClassAt, Sanitized;
    forall k | 0 <= k < |s| ensures Sanitized(alnum, s)[k] == Shown(ClassAt(alnum, s, k), s[k]) {
      Classified(alnum, s, k);
    }
  }

  // From two slashes in code to the next newline everything is blank, and there the code goes on.
  lemma {:induction false} LineCommentBlank(alnum: char -> bool, s: string, k: nat, m: nat)
    requires k < m <= |s| && ModeAt(alnum, s, Code, k) == Code && Starts(s[k..], '/', '/')
    requires forall j :: k <= j < m ==> s[j] != '\n'
    ensures Sanitized(alnum, s)[m - 1] == ' '
    ensures ModeAt(alnum, s, Code, m) == if m < |s| && s[m] == '\n' then Code else Line
  {
    hide Sanitized, LiteralTo;
    Classified(alnum, s, m - 1);
    assert m < |s| ==> s[m - 1..][1] == s[m];
    if m - 1 > k {
      LineCommentBlank(alnum, s, k, m - 1);
    } else {
      assert s[k + 1] == s[k..][1];
    }
  }
}
