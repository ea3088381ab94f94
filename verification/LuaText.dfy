// The Lua text the migration writes (src/migrate_v1_to_v2.rs), and a reader for it: short
// string literals as in section 3.1 of the Lua 5.4 reference manual, comments, and calls.
module LuaText {
  import opened Whitespace
  import opened Wrappers
  import opened ConfigLua

  // ---------- quoting ----------

  function QuoteChar(c: char): string {
    match c
    case '\\' => "\\\\"
    case '\'' => "\\'"
    case '\n' => "\\n"
    case '\r' => "\\r"
    case _ => [c]
  }

  function QuoteBody(s: string): string {
    if s == "" then "" else QuoteChar(s[0]) + QuoteBody(s[1..])
  }

  function Quoted(s: string): string {
    "'" + QuoteBody(s) + "'"
  }

  lemma QuoteStep(s: string, i: nat, had: string)
    requires i < |s|
    ensures had + QuoteBody(s[i..]) == had + QuoteChar(s[i]) + QuoteBody(s[i + 1..])
  {
    hide QuoteChar;
    assert s[i..][1..] == s[i + 1..];
    assert had + (QuoteChar(s[i]) + QuoteBody(s[i + 1..])) == had + QuoteChar(s[i]) + QuoteBody(s[i + 1..]);
  }

  method LuaQuote(s: string) returns (out: string)
    ensures out == Quoted(s)
  {
    hide QuoteChar;
    out := "'";
    assert s[0..] == s;
    for i := 0 to |s|
      invariant out + QuoteBody(s[i..]) == "'" + QuoteBody(s)
    {
      QuoteStep(s, i, out);
      out := out + QuoteChar(s[i]);
    }
    assert out == "'" + QuoteBody(s);
    out := out + "'";
  }

  // What a quoted text looks like: the literal of a concatenation is the concatenation of the bodies,
  // characters other than four stand for themselves, and there is no raw line break.
  predicate IsPlain(c: char) {
    c != '\\' && c != '\'' && c != '\n' && c != '\r'
  }

  lemma {:induction false} QuoteConcat(a: string, b: string)
    ensures QuoteBody(a + b) == QuoteBody(a) + QuoteBody(b)
  {
    hide QuoteChar;
    if a == "" {
      assert a + b == b;
    } else {
      assert (a + b)[1..] == a[1..] + b;
      QuoteConcat(a[1..], b);
      assert QuoteChar(a[0]) + (QuoteBody(a[1..]) + QuoteBody(b)) == QuoteChar(a[0]) + QuoteBody(a[1..]) + QuoteBody(b);
    }
  }

  lemma {:induction false} QuotePlain(s: string)
    requires forall i :: 0 <= i < |s| ==> IsPlain(s[i])
    ensures QuoteBody(s) == s
  {
    if s != "" {
      QuotePlain(s[1..]);
    }
  }

  lemma {:induction false} QuotedOneLine(s: string)
    ensures forall i :: 0 <= i < |Quoted(s)| ==> Quoted(s)[i] != '\n' && Quoted(s)[i] != '\r'
  {
    if s != "" {
      QuotedOneLine(s[1..]);
      var head, rest := QuoteChar(s[0]), QuoteBody(s[1..]);
      assert forall i :: 0 <= i < |rest| ==> rest[i] == Quoted(s[1..])[i + 1];
      assert Quoted(s) == "'" + head + rest + "'";
    }
  }

  // ---------- reading a short literal ----------

  // The single-character escape sequences.
  function Escape(c: char): Option<char> {
    match c
    case 'a' => Some(7 as char)
    case 'b' => Some(8 as char)
    case 't' => Some(9 as char)
    case 'n' => Some('\n')
    case 'v' => Some(11 as char)
    case 'f' => Some(12 as char)
    case 'r' => Some('\r')
    case '\\' => Some('\\')
    case '"' => Some('"')
    case '\'' => Some('\'')
    case '\n' => Some('\n')
    case _ => None
  }

  datatype Read<T> = Fail | Done(value: T, rest: string)

  // The contents up to the matching delimiter. A raw line break does not lex.
  function ReadBody(s: string, delimiter: char): (r: Read<string>)
    ensures r.Done? ==> |r.rest| < |s|
  {
    if s == "" || s[0] == '\n' || s[0] == '\r' then Fail
    else if s[0] == delimiter then Done("", s[1..])
    else if s[0] != '\\' then Prepend(s[0], ReadBody(s[1..], delimiter))
    else if |s| == 1 then Fail
    else match Escape(s[1])
      case None => Fail
      case Some(c) => Prepend(c, ReadBody(s[2..], delimiter))
  }

  function Prepend(c: char, r: Read<string>): Read<string> {
    if r.Fail? then Fail else Done([c] + r.value, r.rest)
  }

  function ReadString(s: string): (r: Read<string>)
    ensures r.Done? ==> |r.rest| < |s|
  {
    if s != "" && (s[0] == '\'' || s[0] == '"') then ReadBody(s[1..], s[0]) else Fail
  }

  lemma QuoteCharReads(c: char, rest: string)
    ensures ReadBody(QuoteChar(c) + rest, '\'') == Prepend(c, ReadBody(rest, '\''))
  {
    var q := QuoteChar(c);
    assert (q + rest)[|q|..] == rest;
    if |q| == 2 {
      assert (q + rest)[0] == '\\' && (q + rest)[1] == q[1] && Escape(q[1]) == Some(c);
    }
  }

  lemma QuoteEnds(suffix: string)
    ensures ReadBody("'" + suffix, '\'') == Done("", suffix)
  {
    assert ("'" + suffix)[1..] == suffix;
  }

  lemma {:induction false} QuoteBodyReads(s: string, suffix: string)
    ensures ReadBody(QuoteBody(s) + ("'" + suffix), '\'') == Done(s, suffix)
  {
    hide ReadBody, QuoteChar;
    if s == "" {
      QuoteEnds(suffix);
      assert QuoteBody(s) + ("'" + suffix) == "'" + suffix;
    } else {
      QuoteBodyReads(s[1..], suffix);
      var rest := QuoteBody(s[1..]) + ("'" + suffix);
      QuoteCharReads(s[0], rest);
      assert QuoteBody(s) + ("'" + suffix) == QuoteChar(s[0]) + rest;
      assert s == [s[0]] + s[1..];
    }
  }

  // The literal reads back as `s`, and lexing stops at its final quote.
  lemma QuoteRoundTrip(s: string, suffix: string)
    ensures ReadString(Quoted(s) + suffix) == Done(s, suffix)
  {
    hide QuoteBody, ReadBody;
    QuoteBodyReads(s, suffix);
    assert (Quoted(s) + suffix)[1..] == QuoteBody(s) + ("'" + suffix);
  }

  lemma QuoteInjective(a: string, b: string, x: string, y: string)
    requires Quoted(a) + x == Quoted(b) + y
    ensures a == b && x == y
  {
    QuoteRoundTrip(a, x);
    QuoteRoundTrip(b, y);
  }

  // ---------- integers ----------

  function Digit(n: nat): char
    requires n < 10
  {
    "0123456789"[n]
  }

  function PrintNat(n: nat): string {
    (if n < 10 then "" else PrintNat(n / 10)) + [Digit(n % 10)]
  }

  function PrintInt(n: int): string {
    if n < 0 then "-" + PrintNat(-n) else PrintNat(n)
  }

  predicate IsDigit(c: char) {
    '0' <= c <= '9'
  }

  function ReadDigits(s: string, acc: nat): (r: Read<int>)
    ensures r.Done? && |r.rest| <= |s|
  {
    if s != "" && IsDigit(s[0]) then ReadDigits(s[1..], 10 * acc + (s[0] as int - '0' as int)) else Done(acc, s)
  }

  function ReadInt(s: string): (r: Read<int>)
    ensures r.Done? ==> |r.rest| <= |s|
  {
    if s != "" && s[0] == '-' then
      match ReadDigits(s[1..], 0) case Fail => Fail case Done(n, rest) => Done(-n, rest)
    else ReadDigits(s, 0)
  }

  lemma DigitValue(n: nat)
    requires n < 10
    ensures IsDigit(Digit(n)) && Digit(n) as int - '0' as int == n
  {
  }

  lemma DigitStep(n: nat, acc: nat, rest: string)
    requires n < 10
    ensures ReadDigits([Digit(n)] + rest, acc) == ReadDigits(rest, 10 * acc + n)
  {
    DigitValue(n);
    assert ([Digit(n)] + rest)[1..] == rest;
  }

  lemma DigitsStop(rest: string, acc: nat)
    requires rest != "" && !IsDigit(rest[0])
    ensures ReadDigits(rest, acc) == Done(acc, rest)
  {
  }

  lemma {:induction false} NatReads(n: nat, rest: string)
    ensures ReadDigits(PrintNat(n) + rest, 0) == ReadDigits(rest, n)
  {
    hide ReadDigits, Digit;
    var d := [Digit(n % 10)];
    if n < 10 {
      DigitStep(n % 10, 0, rest);
      assert PrintNat(n) + rest == d + rest;
    } else {
      NatReads(n / 10, d + rest);
      DigitStep(n % 10, n / 10, rest);
      assert PrintNat(n) + rest == PrintNat(n / 10) + (d + rest);
    }
  }

  lemma {:induction false} NatStartsWithDigit(n: nat)
    ensures PrintNat(n) != "" && IsDigit(PrintNat(n)[0])
  {
    DigitValue(n % 10);
    if n >= 10 {
      NatStartsWithDigit(n / 10);
    }
  }

  // No leading zero, and a minus sign exactly for a negative number.
  lemma {:induction false} NatShortest(n: nat)
    ensures PrintNat(n) != "" && (PrintNat(n)[0] == '0' <==> n == 0) && (n == 0 ==> PrintNat(n) == "0")
    ensures PrintNat(n)[0] != '-'
  {
    DigitValue(n % 10);
    if n >= 10 {
      NatShortest(n / 10);
      assert PrintNat(n)[0] == PrintNat(n / 10)[0];
    } else {
      assert Digit(n) == '0' <==> n == 0;
    }
  }

  lemma IntRoundTrip(n: int, rest: string)
    requires rest != "" && !IsDigit(rest[0])
    ensures ReadInt(PrintInt(n) + rest) == Done(n, rest)
  {
    hide PrintNat, ReadDigits;
    var m := if n < 0 then -n else n;
    DigitsStop(rest, m);
    NatReads(m, rest);
    NatStartsWithDigit(m);
    if n < 0 {
      assert (PrintInt(n) + rest)[1..] == PrintNat(m) + rest;
    }
  }

  // ---------- statements ----------

  // In pieces: what a proof says of every character of a literal it can say of short ones only.
  const VERSION_MARKER_LINE := "ravel.config" + ".config_version" + " = 2"

  // The statements the generator can write.
  predicate Printable(stmt: Stmt) {
    stmt.SetAgent? || stmt.SetHeadroom? || stmt.SetModelFor? ||
    stmt.SetProviderFor? || stmt.SetToken? || stmt.WriteOther?
  }

  function Args1(a: string): string {
    Quoted(a) + ")\n"
  }

  function Args2(a: string, b: string): string {
    Quoted(a) + ", " + Args1(b)
  }

  function Args3(a: string, b: string, c: string): string {
    Quoted(a) + ", " + Args2(b, c)
  }

  // One line of Lua; `WriteOther` is the version stamp.
  function Line(stmt: Stmt): string
    requires Printable(stmt)
  {
    match stmt
    case SetAgent(name) => "ravel.set_agent(" + Args1(name)
    case SetHeadroom(n) => "ravel.set_headroom(" + (PrintInt(n) + ")\n")
    case SetModelFor(agent, phase, model) => "ravel.set_model_for(" + Args3(agent, phase, model)
    case SetProviderFor(agent, provider) => "ravel.set_provider_for(" + Args2(agent, provider)
    case SetToken(agent, token, value) => "ravel.set_token(" + Args3(agent, token, value)
    case WriteOther => VERSION_MARKER_LINE + "\n"
  }

  datatype Item = Comment(text: string) | Blank | Code(stmt: Stmt)

  // A line break ends a short comment, a carriage return included.
  predicate OneLine(s: string) {
    forall i :: 0 <= i < |s| ==> s[i] != '\n' && s[i] != '\r'
  }

  // `[[`, `[=[` and so on: a long bracket, which after two dashes opens a comment of many lines.
  predicate OpensLong(s: string) {
    s != "" && s[0] == '[' && BracketFollows(s[1..])
  }

  predicate BracketFollows(s: string) {
    s != "" && (s[0] == '[' || (s[0] == '=' && BracketFollows(s[1..])))
  }

  // What may stand on a line after two dashes.
  predicate IsComment(s: string) {
    OneLine(s) && !OpensLong(s)
  }

  predicate ItemOk(item: Item) {
    match item case Comment(t) => IsComment(t) case Blank => true case Code(s) => Printable(s)
  }

  predicate ItemsOk(items: seq<Item>) {
    forall i :: 0 <= i < |items| ==> ItemOk(items[i])
  }

  function RenderItem(item: Item): string
    requires ItemOk(item)
  {
    match item case Comment(t) => "--" + t + "\n" case Blank => "\n" case Code(s) => Line(s)
  }

  function Render(items: seq<Item>): string
    requires ItemsOk(items)
  {
    if items == [] then "" else RenderItem(items[0]) + Render(items[1..])
  }

  function Statements(items: seq<Item>): seq<Stmt> {
    if items == [] then [] else (if items[0].Code? then [items[0].stmt] else []) + Statements(items[1..])
  }

  // ---------- reading statements ----------

  function Expect(literal: string, s: string): (r: Read<()>)
    ensures r.Done? ==> |r.rest| + |literal| == |s|
  {
    if literal <= s then Done((), s[|literal|..]) else Fail
  }

  function ReadArgs1(s: string): (r: Read<seq<string>>)
    ensures r.Done? ==> |r.rest| < |s| && |r.value| == 1
  {
    match ReadString(s) case Fail => Fail case Done(a, rest) =>
      match Expect(")\n", rest) case Fail => Fail case Done(_, rest1) => Done([a], rest1)
  }

  function ReadArgs2(s: string): (r: Read<seq<string>>)
    ensures r.Done? ==> |r.rest| < |s| && |r.value| == 2
  {
    match ReadString(s) case Fail => Fail case Done(a, rest) =>
      match Expect(", ", rest) case Fail => Fail case Done(_, rest1) =>
        match ReadArgs1(rest1) case Fail => Fail case Done(b, rest2) => Done([a] + b, rest2)
  }

  function ReadArgs3(s: string): (r: Read<seq<string>>)
    ensures r.Done? ==> |r.rest| < |s| && |r.value| == 3
  {
    match ReadString(s) case Fail => Fail case Done(a, rest) =>
      match Expect(", ", rest) case Fail => Fail case Done(_, rest1) =>
        match ReadArgs2(rest1) case Fail => Fail case Done(b, rest2) => Done([a] + b, rest2)
  }

  function NameLength(s: string): (n: nat)
    ensures n <= |s|
  {
    if s != "" && ('a' <= s[0] <= 'z' || s[0] == '_') then 1 + NameLength(s[1..]) else 0
  }

  // The arguments of a call of the setter `name`, up to the end of its line.
  function ReadCall(name: string, s: string): (r: Read<Stmt>)
    ensures r.Done? ==> |r.rest| < |s|
  {
    if name == "set_agent" then
      match ReadArgs1(s) case Fail => Fail case Done(a, rest) => Done(SetAgent(a[0]), rest)
    else if name == "set_headroom" then
      match ReadInt(s) case Fail => Fail case Done(n, rest) =>
        match Expect(")\n", rest) case Fail => Fail case Done(_, rest1) => Done(SetHeadroom(n), rest1)
    else if name == "set_model_for" then
      match ReadArgs3(s) case Fail => Fail case Done(a, rest) => Done(SetModelFor(a[0], a[1], a[2]), rest)
    else if name == "set_provider_for" then
      match ReadArgs2(s) case Fail => Fail case Done(a, rest) => Done(SetProviderFor(a[0], a[1]), rest)
    else if name == "set_token" then
      match ReadArgs3(s) case Fail => Fail case Done(a, rest) => Done(SetToken(a[0], a[1], a[2]), rest)
    else Fail
  }

  function ReadStatement(s: string): (r: Read<Stmt>)
    ensures r.Done? ==> |r.rest| < |s|
  {
    if VERSION_MARKER_LINE + "\n" <= s then Done(WriteOther, s[|VERSION_MARKER_LINE| + 1..])
    else match Expect("ravel.", s) case Fail => Fail case Done(_, rest) =>
      var n := NameLength(rest);
      match Expect("(", rest[n..]) case Fail => Fail case Done(_, rest1) => ReadCall(rest[..n], rest1)
  }

  function AfterLine(s: string): (r: string)
    ensures s != "" ==> |r| < |s|
  {
    if s == "" then "" else if s[0] == '\n' then s[1..] else AfterLine(s[1..])
  }

  datatype Piece = End | Silence(rest: string) | Statement(stmt: Stmt, rest: string) | Return(rest: string) | Unreadable

  // What a script begins with.
  function Next(s: string): (r: Piece)
    ensures (r.Silence? || r.Statement?) ==> |r.rest| < |s|
  {
    if s == "" then End
    else if s[0] == '\n' then Silence(s[1..])
    else if "--" <= s then
      if IsComment(s[2..][..LineEnd(s[2..])]) then Silence(AfterLine(s)) else Unreadable
    else if "return" <= s then Return(s[6..])
    else match ReadStatement(s) case Fail => Unreadable case Done(stmt, rest) => Statement(stmt, rest)
  }

  // Blank lines and comments only.
  predicate IsSilent(s: string)
    decreases |s|
  {
    match Next(s) case End => true case Silence(rest) => IsSilent(rest) case _ => false
  }

  // A script made of blank lines, short comments, the version stamp, setter calls and, at its end,
  // possibly a bare `return`.
  function ReadProgram(s: string): Option<seq<Stmt>>
    decreases |s|
  {
    match Next(s)
    case End => Some([])
    case Silence(rest) => ReadProgram(rest)
    case Statement(stmt, rest) => (match ReadProgram(rest) case None => None case Some(stmts) => Some([stmt] + stmts))
    case Return(rest) => if IsSilent(rest) then Some([]) else None
    case Unreadable => None
  }

  // The script comes to a `return`.
  predicate Returns(s: string)
    decreases |s|
  {
    match Next(s)
    case Silence(rest) => Returns(rest)
    case Statement(_, rest) => Returns(rest)
    case Return(_) => true
    case _ => false
  }

  predicate StampFollows(s: string)
    decreases |s|
  {
    match Next(s) case Silence(rest) => StampFollows(rest) case Statement(stmt, _) => stmt.WriteOther? case _ => false
  }

  // The version stamp comes after a `return`. Lua takes the field for the value returned and refuses
  // the script at the equals sign: a `return` ends its block (section 3.3.4 of the reference manual).
  predicate Refused(s: string)
    decreases |s|
  {
    match Next(s)
    case Silence(rest) => Refused(rest)
    case Statement(_, rest) => Refused(rest)
    case Return(rest) => StampFollows(rest)
    case _ => false
  }

  // ---------- what is printed is read back ----------

  lemma ExpectReads(literal: string, rest: string)
    ensures Expect(literal, literal + rest) == Done((), rest)
  {
    assert (literal + rest)[|literal|..] == rest;
  }

  lemma Args1Read(a: string, rest: string)
    ensures ReadArgs1(Args1(a) + rest) == Done([a], rest)
  {
    hide Quoted, ReadString, Expect;
    QuoteRoundTrip(a, ")\n" + rest);
    ExpectReads(")\n", rest);
    assert Args1(a) + rest == Quoted(a) + (")\n" + rest);
  }

  lemma Args2Read(a: string, b: string, rest: string)
    ensures ReadArgs2(Args2(a, b) + rest) == Done([a, b], rest)
  {
    hide Quoted, ReadString, Expect, Args1, ReadArgs1;
    QuoteRoundTrip(a, ", " + (Args1(b) + rest));
    ExpectReads(", ", Args1(b) + rest);
    Args1Read(b, rest);
    assert [a] + [b] == [a, b];
    assert Args2(a, b) + rest == Quoted(a) + (", " + (Args1(b) + rest));
  }

  lemma Args3Read(a: string, b: string, c: string, rest: string)
    ensures ReadArgs3(Args3(a, b, c) + rest) == Done([a, b, c], rest)
  {
    hide Quoted, ReadString, Expect, Args2, ReadArgs2;
    QuoteRoundTrip(a, ", " + (Args2(b, c) + rest));
    ExpectReads(", ", Args2(b, c) + rest);
    Args2Read(b, c, rest);
    assert [a] + [b, c] == [a, b, c];
    assert Args3(a, b, c) + rest == Quoted(a) + (", " + (Args2(b, c) + rest));
  }

  predicate IsName(name: string) {
    forall i :: 0 <= i < |name| ==> 'a' <= name[i] <= 'z' || name[i] == '_'
  }

  lemma {:induction false} NameReads(name: string, rest: string)
    requires IsName(name) && rest != "" && rest[0] == '('
    ensures NameLength(name + rest) == |name|
  {
    if name == "" {
      assert name + rest == rest;
    } else {
      assert (name + rest)[1..] == name[1..] + rest;
      NameReads(name[1..], rest);
    }
  }

  // A setter call is recognised by its name.
  lemma CallReads(name: string, args: string)
    requires IsName(name) && name != "" && name[0] == 's'
    ensures ReadStatement("ravel." + name + "(" + args) == ReadCall(name, args)
  {
    hide ReadCall;
    var tail := "(" + args;
    var s := "ravel." + (name + tail);
    assert "ravel." + name + "(" + args == s;
    assert s[6] == 's' && VERSION_MARKER_LINE[6] == 'c';
    ExpectReads("ravel.", name + tail);
    NameReads(name, tail);
    assert (name + tail)[..|name|] == name && (name + tail)[|name|..] == tail;
    ExpectReads("(", args);
  }

  lemma SetterNames()
    ensures IsName("set_agent") && IsName("set_headroom") && IsName("set_model_for") && IsName("set_provider_for")
    ensures IsName("set_token")
    ensures "set_agent"[4] != "set_token"[4]
  {
  }

  lemma AgentReads(name: string, rest: string)
    ensures ReadStatement(Line(SetAgent(name)) + rest) == Done(SetAgent(name), rest)
  {
    hide ReadStatement, ReadArgs1, ReadArgs2, ReadArgs3, ReadInt, Args1, Args2, Args3, PrintInt, IsName;
    SetterNames();
    CallReads("set_agent", Args1(name) + rest);
    Args1Read(name, rest);
    assert Line(SetAgent(name)) + rest == "ravel." + "set_agent" + "(" + (Args1(name) + rest);
  }

  lemma HeadroomLine(n: int, rest: string)
    ensures Line(SetHeadroom(n)) + rest == "ravel." + "set_headroom" + "(" + (PrintInt(n) + (")\n" + rest))
  {
    hide PrintInt;
    assert "ravel.set_headroom(" == "ravel." + "set_headroom" + "(";
  }

  lemma HeadroomCall(s: string)
    ensures ReadCall("set_headroom", s) == match ReadInt(s)
      case Fail => Fail
      case Done(n, rest) =>
        match Expect(")\n", rest) case Fail => Fail case Done(_, rest1) => Done(SetHeadroom(n), rest1)
  {
    hide ReadInt, Expect, ReadArgs1, ReadArgs2, ReadArgs3;
  }

  lemma HeadroomReads(n: int, rest: string)
    ensures ReadStatement(Line(SetHeadroom(n)) + rest) == Done(SetHeadroom(n), rest)
  {
    hide ReadStatement, ReadCall, ReadInt, PrintInt, IsName, Expect, Line;
    SetterNames();
    var tail := ")\n" + rest;
    assert tail[0] == ')';
    CallReads("set_headroom", PrintInt(n) + tail);
    HeadroomCall(PrintInt(n) + tail);
    IntRoundTrip(n, tail);
    ExpectReads(")\n", rest);
    HeadroomLine(n, rest);
  }

  lemma ModelReads(agent: string, phase: string, model: string, rest: string)
    ensures ReadStatement(Line(SetModelFor(agent, phase, model)) + rest) == Done(SetModelFor(agent, phase, model), rest)
  {
    hide ReadStatement, ReadArgs1, ReadArgs2, ReadArgs3, ReadInt, Args1, Args2, Args3, PrintInt, IsName;
    SetterNames();
    CallReads("set_model_for", Args3(agent, phase, model) + rest);
    Args3Read(agent, phase, model, rest);
    assert Line(SetModelFor(agent, phase, model)) + rest
      == "ravel." + "set_model_for" + "(" + (Args3(agent, phase, model) + rest);
  }

  lemma ProviderReads(agent: string, provider: string, rest: string)
    ensures ReadStatement(Line(SetProviderFor(agent, provider)) + rest) == Done(SetProviderFor(agent, provider), rest)
  {
    hide ReadStatement, ReadArgs1, ReadArgs2, ReadArgs3, ReadInt, Args1, Args2, Args3, PrintInt, IsName;
    SetterNames();
    CallReads("set_provider_for", Args2(agent, provider) + rest);
    Args2Read(agent, provider, rest);
    assert Line(SetProviderFor(agent, provider)) + rest
      == "ravel." + "set_provider_for" + "(" + (Args2(agent, provider) + rest);
  }

  lemma TokenReads(agent: string, token: string, value: string, rest: string)
    ensures ReadStatement(Line(SetToken(agent, token, value)) + rest) == Done(SetToken(agent, token, value), rest)
  {
    hide ReadStatement, ReadArgs1, ReadArgs2, ReadArgs3, ReadInt, Args1, Args2, Args3, PrintInt, IsName;
    SetterNames();
    CallReads("set_token", Args3(agent, token, value) + rest);
    Args3Read(agent, token, value, rest);
    assert Line(SetToken(agent, token, value)) + rest
      == "ravel." + "set_token" + "(" + (Args3(agent, token, value) + rest);
  }

  lemma LineReads(stmt: Stmt, rest: string)
    requires Printable(stmt)
    ensures ReadStatement(Line(stmt) + rest) == Done(stmt, rest)
  {
    hide ReadStatement, Args1, Args2, Args3, PrintInt;
    match stmt {
      case SetAgent(name) => AgentReads(name, rest);
      case SetHeadroom(n) => HeadroomReads(n, rest);
      case SetModelFor(agent, phase, model) => ModelReads(agent, phase, model, rest);
      case SetProviderFor(agent, provider) => ProviderReads(agent, provider, rest);
      case SetToken(agent, token, value) => TokenReads(agent, token, value, rest);
      case WriteOther => StampReads(rest);
    }
  }

  lemma StampReads(rest: string)
    ensures ReadStatement(VERSION_MARKER_LINE + "\n" + rest) == Done(WriteOther, rest)
  {
    var s := VERSION_MARKER_LINE + "\n" + rest;
    assert s[|VERSION_MARKER_LINE| + 1..] == rest;
  }

  lemma {:induction false} CommentSkips(text: string, rest: string)
    requires OneLine(text)
    ensures AfterLine(text + "\n" + rest) == rest
  {
    if text == "" {
      assert text + "\n" + rest == "\n" + rest;
    } else {
      assert (text + "\n" + rest)[1..] == text[1..] + "\n" + rest;
      CommentSkips(text[1..], rest);
    }
  }

  lemma CommentItemReads(text: string, rest: string)
    requires IsComment(text)
    ensures Next("--" + text + "\n" + rest) == Silence(rest)
  {
    hide OpensLong, AfterLine;
    var s, after := "--" + text + "\n" + rest, text + "\n" + rest;
    CommentSkips("--" + text, rest);
    assert s == ("--" + text) + "\n" + rest;
    assert s[2..] == after && s[..2] == "--" && s[0] == '-';
    LineEndIs(after, |text|);
    assert after[..|text|] == text;
  }

  lemma LineStart(stmt: Stmt)
    requires Printable(stmt)
    ensures |Line(stmt)| > 1 && Line(stmt)[0] == 'r' && Line(stmt)[1] == 'a'
  {
    hide Args1, Args2, Args3, PrintInt;
  }

  lemma ItemReads(item: Item, rest: string)
    requires ItemOk(item)
    ensures Next(RenderItem(item) + rest) == match item case Code(stmt) => Statement(stmt, rest) case _ => Silence(rest)
  {
    hide ReadStatement, Line, AfterLine, IsComment;
    match item {
      case Comment(t) =>
        CommentItemReads(t, rest);
        assert RenderItem(item) + rest == "--" + t + "\n" + rest;
      case Blank =>
        assert ("\n" + rest)[1..] == rest;
      case Code(stmt) =>
        LineReads(stmt, rest);
        LineStart(stmt);
        assert "--"[0] == '-' && "return"[1] == 'e';
    }
  }

  lemma {:induction false} ProgramRoundTrip(items: seq<Item>)
    requires ItemsOk(items)
    ensures ReadProgram(Render(items)) == Some(Statements(items)) && !Returns(Render(items))
  {
    hide Next, RenderItem;
    if items == [] {
      NextNothing();
    } else {
      ProgramRoundTrip(items[1..]);
      ItemReads(items[0], Render(items[1..]));
      assert [] + Statements(items[1..]) == Statements(items[1..]);
    }
  }

  lemma NextNothing()
    ensures Next("") == End
  {
  }

  // ---------- appending to a script ----------

  // What the reader has accepted it accepts the same with more text behind it.

  lemma ExpectAppends(literal: string, s: string, y: string)
    requires Expect(literal, s).Done?
    ensures Expect(literal, s + y) == Done((), Expect(literal, s).rest + y)
  {
    assert (s + y)[|literal|..] == s[|literal|..] + y;
  }

  lemma {:induction false} BodyAppends(s: string, delimiter: char, y: string)
    requires ReadBody(s, delimiter).Done?
    ensures ReadBody(s + y, delimiter) == Done(ReadBody(s, delimiter).value, ReadBody(s, delimiter).rest + y)
  {
    assert (s + y)[1..] == s[1..] + y;
    if s[0] == delimiter {
    } else if s[0] != '\\' {
      BodyAppends(s[1..], delimiter, y);
    } else {
      assert (s + y)[2..] == s[2..] + y;
      BodyAppends(s[2..], delimiter, y);
    }
  }

  lemma StringAppends(s: string, y: string)
    requires ReadString(s).Done?
    ensures ReadString(s + y) == Done(ReadString(s).value, ReadString(s).rest + y)
  {
    hide ReadBody;
    BodyAppends(s[1..], s[0], y);
    assert (s + y)[1..] == s[1..] + y;
  }

  lemma Args1Appends(s: string, y: string)
    requires ReadArgs1(s).Done?
    ensures ReadArgs1(s + y) == Done(ReadArgs1(s).value, ReadArgs1(s).rest + y)
  {
    hide ReadString, Expect;
    StringAppends(s, y);
    ExpectAppends(")\n", ReadString(s).rest, y);
  }

  lemma Args2Appends(s: string, y: string)
    requires ReadArgs2(s).Done?
    ensures ReadArgs2(s + y) == Done(ReadArgs2(s).value, ReadArgs2(s).rest + y)
  {
    hide ReadString, Expect, ReadArgs1;
    StringAppends(s, y);
    ExpectAppends(", ", ReadString(s).rest, y);
    Args1Appends(Expect(", ", ReadString(s).rest).rest, y);
  }

  lemma Args3Appends(s: string, y: string)
    requires ReadArgs3(s).Done?
    ensures ReadArgs3(s + y) == Done(ReadArgs3(s).value, ReadArgs3(s).rest + y)
  {
    hide ReadString, Expect, ReadArgs2;
    StringAppends(s, y);
    ExpectAppends(", ", ReadString(s).rest, y);
    Args2Appends(Expect(", ", ReadString(s).rest).rest, y);
  }

  // Digits are read up to the first other character, so one must be there.
  lemma {:induction false} DigitsAppend(s: string, acc: nat, y: string)
    requires ReadDigits(s, acc).rest != ""
    ensures ReadDigits(s + y, acc) == Done(ReadDigits(s, acc).value, ReadDigits(s, acc).rest + y)
  {
    if s != "" && IsDigit(s[0]) {
      assert (s + y)[1..] == s[1..] + y;
      DigitsAppend(s[1..], 10 * acc + (s[0] as int - '0' as int), y);
    }
  }

  lemma IntAppends(s: string, y: string)
    requires ReadInt(s).Done? && ReadInt(s).rest != ""
    ensures ReadInt(s + y) == Done(ReadInt(s).value, ReadInt(s).rest + y)
  {
    hide ReadDigits;
    if s != "" && s[0] == '-' {
      assert (s + y)[1..] == s[1..] + y;
      DigitsAppend(s[1..], 0, y);
    } else {
      DigitsAppend(s, 0, y);
      assert s != "" by { NoDigits(0); }
    }
  }

  lemma NoDigits(acc: nat)
    ensures ReadDigits("", acc) == Done(acc, "")
  {
  }

  lemma CallAppends(name: string, s: string, y: string)
    requires ReadCall(name, s).Done?
    ensures ReadCall(name, s + y) == Done(ReadCall(name, s).value, ReadCall(name, s).rest + y)
  {
    hide ReadArgs1, ReadArgs2, ReadArgs3, ReadInt;
    if name == "set_agent" {
      Args1Appends(s, y);
    } else if name == "set_headroom" {
      IntAppends(s, y);
      ExpectAppends(")\n", ReadInt(s).rest, y);
    } else if name == "set_provider_for" {
      Args2Appends(s, y);
    } else {
      Args3Appends(s, y);
    }
  }

  lemma {:induction false} NameAppends(s: string, y: string)
    requires NameLength(s) < |s|
    ensures NameLength(s + y) == NameLength(s)
  {
    if 'a' <= s[0] <= 'z' || s[0] == '_' {
      assert (s + y)[1..] == s[1..] + y;
      NameAppends(s[1..], y);
    }
  }

  lemma {:induction false} NameLetters(s: string, i: nat)
    requires i < NameLength(s)
    ensures 'a' <= s[i] <= 'z' || s[i] == '_'
  {
    if i > 0 {
      NameLetters(s[1..], i - 1);
    }
  }

  lemma MarkerCharacters()
    ensures |VERSION_MARKER_LINE| == 31 && VERSION_MARKER_LINE[12] == '.' && '(' !in VERSION_MARKER_LINE
  {
    assert '(' !in "ravel.config" && '(' !in ".config_version" && '(' !in " = 2";
  }

  // A setter call does not turn into the version stamp by what follows it.
  lemma CallIsNoStamp(x: string, y: string)
    requires "ravel." <= x && NameLength(x[6..]) + 6 < |x| && x[NameLength(x[6..]) + 6] == '('
    ensures !(VERSION_MARKER_LINE + "\n" <= x + y)
  {
    hide NameLength;
    MarkerCharacters();
    var stamp, n := VERSION_MARKER_LINE + "\n", NameLength(x[6..]);
    var p := if n + 6 < 32 then n + 6 else 12;
    if n + 6 < 32 {
      assert p < 31 ==> stamp[p] == VERSION_MARKER_LINE[p];
    } else {
      NameLetters(x[6..], 6);
      assert x[12] == x[6..][6] && stamp[12] == VERSION_MARKER_LINE[12];
    }
    assert (x + y)[p] == x[p] != stamp[p];
  }

  lemma StatementAppends(x: string, y: string)
    requires ReadStatement(x).Done?
    ensures ReadStatement(x + y) == Done(ReadStatement(x).value, ReadStatement(x).rest + y)
  {
    hide NameLength, ReadCall;
    if VERSION_MARKER_LINE + "\n" <= x {
      assert |VERSION_MARKER_LINE + "\n"| == |VERSION_MARKER_LINE| + 1;
      assert (x + y)[|VERSION_MARKER_LINE| + 1..] == x[|VERSION_MARKER_LINE| + 1..] + y;
    } else {
      var rest := x[6..];
      var n := NameLength(rest);
      CallIsNoStamp(x, y);
      assert (x + y)[6..] == rest + y;
      NameAppends(rest, y);
      assert (rest + y)[n..] == rest[n..] + y && (rest + y)[..n] == rest[..n];
      ExpectAppends("(", rest[n..], y);
      CallAppends(rest[..n], Expect("(", rest[n..]).rest, y);
    }
  }

  lemma {:induction false} LineAppends(s: string, y: string)
    requires y != "" && y[0] == '\n'
    ensures if '\n' in s then AfterLine(s + y) == AfterLine(s) + y else AfterLine(s) == "" && AfterLine(s + y) == y[1..]
  {
    if s == "" {
      assert s + y == y;
    } else {
      assert (s + y)[1..] == s[1..] + y;
      if s[0] != '\n' {
        LineAppends(s[1..], y);
      }
    }
  }

  lemma LineEndAppends(s: string, y: string)
    requires y != "" && y[0] == '\n'
    ensures LineEnd(s + y) == LineEnd(s) && (s + y)[..LineEnd(s)] == s[..LineEnd(s)]
  {
    LineEndIs(s + y, LineEnd(s));
  }

  lemma StatementStart(x: string)
    requires ReadStatement(x).Done?
    ensures |x| > 1 && x[0] == 'r' && x[1] == 'a'
  {
    hide ReadCall, NameLength;
    assert VERSION_MARKER_LINE[0] == 'r' && VERSION_MARKER_LINE[1] == 'a' && "ravel."[1] == 'a';
  }

  // More text on a new line leaves the beginning of a script as it is read.
  lemma NextAppends(x: string, y: string)
    requires y != "" && y[0] == '\n'
    ensures match Next(x)
      case Silence(rest) => Next(x + y) == Silence(rest + y) || (rest == "" && Next(x + y) == Silence(y[1..]))
      case Statement(stmt, rest) => Next(x + y) == Statement(stmt, rest + y)
      case Return(rest) => Next(x + y) == Return(rest + y)
      case _ => true
  {
    hide ReadStatement, AfterLine, IsComment;
    if x != "" && x[0] == '\n' {
      assert (x + y)[1..] == x[1..] + y;
    } else if "--" <= x {
      assert (x + y)[2..] == x[2..] + y;
      LineEndAppends(x[2..], y);
      LineAppends(x, y);
    } else if "return" <= x {
      assert (x + y)[6..] == x[6..] + y;
      assert "--"[0] == '-';
    } else if x != "" && ReadStatement(x).Done? {
      StatementAppends(x, y);
      StatementStart(x);
      assert "--"[0] == '-' && "return"[1] == 'e' && (x + y)[1] == x[1];
    }
  }

  lemma NextBreak(y: string)
    requires y != "" && y[0] == '\n'
    ensures Next(y) == Silence(y[1..])
  {
  }

  lemma {:induction false} SilentAppends(x: string, y: string)
    requires IsSilent(x) && y != "" && y[0] == '\n'
    ensures IsSilent(x + y) <==> IsSilent(y)
    ensures StampFollows(x + y) <==> StampFollows(y)
    decreases |x|
  {
    hide Next;
    NextAppends(x, y);
    NextBreak(y);
    if Next(x).End? {
      EndsEmpty(x);
      assert x + y == y;
    } else {
      SilentAppends(Next(x).rest, y);
      assert "" + y == y;
    }
  }

  lemma EndsEmpty(x: string)
    ensures Next(x).End? <==> x == ""
  {
    hide ReadStatement, AfterLine, IsComment;
  }

  // Text that starts on a new line runs after a script that reads, unless that comes to a `return`:
  // then it may only be silent, and a version stamp makes Lua refuse the whole.
  lemma {:induction false} ProgramAppends(x: string, y: string)
    requires ReadProgram(x).Some? && y != "" && y[0] == '\n'
    ensures !Returns(x) ==>
      ReadProgram(x + y) == match ReadProgram(y)
        case None => None
        case Some(stmts) => Some(ReadProgram(x).value + stmts)
    ensures Returns(x) ==> ReadProgram(x + y) == if IsSilent(y) then ReadProgram(x) else None
    ensures Returns(x) ==> (Refused(x + y) <==> StampFollows(y))
    decreases |x|
  {
    hide Next;
    NextAppends(x, y);
    NextBreak(y);
    EndsEmpty(x);
    assert "" + y == y;
    match Next(x) {
      case End =>
        assert ReadProgram(y).Some? ==> [] + ReadProgram(y).value == ReadProgram(y).value;
      case Silence(rest) =>
        ProgramAppends(rest, y);
      case Statement(stmt, rest) =>
        ProgramAppends(rest, y);
        if ReadProgram(y).Some? {
          var p, q := ReadProgram(rest).value, ReadProgram(y).value;
          assert [stmt] + (p + q) == [stmt] + p + q;
        }
      case Return(rest) =>
        SilentAppends(rest, y);
    }
  }
}
