// The rolling stderr buffer and the snippet truncation of src/agent/common.rs, on the UTF-8
// bytes that Rust strings are made of.
module StderrDrain {

  type Byte = n: int | 0 <= n < 256

  const CAP: nat := 4096
  const NEWLINE: Byte := 10

  // What `String` operations check before they cut: a string may be split at `i`.
  predicate IsBoundary(s: seq<Byte>, i: nat)
    requires i <= |s|
  {
    i == 0 || i == |s| || !(0x80 <= s[i] < 0xC0)
  }

  // ---------- the drain ----------

  // `Panicked`: the cut would have split a character.
  datatype Drained = Tail(buffer: seq<Byte>, warnings: nat) | Panicked

  function Transcript(lines: seq<seq<Byte>>): seq<Byte> {
    if lines == [] then [] else Transcript(lines[..|lines| - 1]) + lines[|lines| - 1] + [NEWLINE]
  }

  function LastBytes(s: seq<Byte>): seq<Byte> {
    if |s| > CAP then s[|s| - CAP..] else s
  }

  // The window that starts CAP bytes from the end of `s` begins inside a character.
  predicate TornWindow(s: seq<Byte>) {
    |s| > CAP && !IsBoundary(s, |s| - CAP)
  }

  ghost predicate Torn(lines: seq<seq<Byte>>) {
    exists k :: 0 <= k <= |lines| && TornWindow(Transcript(lines[..k]))
  }

  // The lines one after the other, each with its line break.
  lemma {:induction false} TranscriptConcat(a: seq<seq<Byte>>, b: seq<seq<Byte>>)
    ensures Transcript(a + b) == Transcript(a) + Transcript(b)
    ensures |b| == 1 ==> Transcript(b) == b[0] + [10]
  {
    if b == [] {
      assert a + b == a;
    } else {
      var n := |b| - 1;
      TranscriptConcat(a, b[..n]);
      assert (a + b)[..|a + b| - 1] == a + b[..n];
      assert Transcript(a) + (Transcript(b[..n]) + b[n] + [NEWLINE])
          == Transcript(a) + Transcript(b[..n]) + b[n] + [NEWLINE];
      assert n == 0 ==> b[..n] == [] && [] + b[n] + [NEWLINE] == b[n] + [10];
    }
  }

  // More than 4096 bytes, and the last 4096 of them start with a continuation byte.
  predicate SplitsCharacter(s: seq<Byte>) {
    |s| > 4096 && 0x80 <= s[|s| - 4096] <= 0xBF
  }

  // The buffer is the end of the transcript, all of it up to 4096 bytes; the other way to say
  // that a window is torn is that it splits a character.
  lemma WindowMeans(s: seq<Byte>)
    ensures |LastBytes(s)| == (if |s| < 4096 then |s| else 4096) && LastBytes(s) == s[|s| - |LastBytes(s)|..]
    ensures TornWindow(s) <==> SplitsCharacter(s)
  {
  }

  lemma TranscriptSnoc(lines: seq<seq<Byte>>, i: nat)
    requires i < |lines|
    ensures Transcript(lines[..i + 1]) == Transcript(lines[..i]) + lines[i] + [NEWLINE]
  {
    assert lines[..i + 1][..i] == lines[..i];
  }

  method Drain(lines: seq<seq<Byte>>) returns (r: Drained)
    ensures r.Panicked? <==> Torn(lines)
    ensures r.Panicked? <==>
      exists k :: 0 <= k <= |lines| && SplitsCharacter(Transcript(lines[..k]))
    ensures r.Tail? ==> r.buffer == LastBytes(Transcript(lines))
    ensures r.Tail? ==> |r.buffer| <= 4096 && r.buffer == Transcript(lines)[|Transcript(lines)| - |r.buffer|..]
    ensures r.Tail? ==> r.buffer == Transcript(lines) || |r.buffer| == 4096
    ensures r.Tail? ==> r.warnings == if |Transcript(lines)| > CAP then 1 else 0
  {
    hide LastBytes, Transcript, TornWindow, SplitsCharacter, IsBoundary;
    var buffer: seq<Byte> := [];
    var overflowWarned := false;
    var warnings := 0;
    NothingYet(lines[..0]);
    WindowMeans(Transcript(lines));
    forall k | 0 <= k <= |lines|
      ensures TornWindow(Transcript(lines[..k])) <==> SplitsCharacter(Transcript(lines[..k]))
    {
      WindowMeans(Transcript(lines[..k]));
    }
    for i := 0 to |lines|
      invariant buffer == LastBytes(Transcript(lines[..i]))
      invariant overflowWarned <==> |Transcript(lines[..i])| > CAP
      invariant warnings == if overflowWarned then 1 else 0
      invariant forall k :: 0 <= k <= i ==> !TornWindow(Transcript(lines[..k]))
    {
      ghost var before := Transcript(lines[..i]);
      ghost var more := lines[i] + [NEWLINE];
      TranscriptSnoc(lines, i);
      assert Transcript(lines[..i + 1]) == before + more;
      WindowOfWindow(before, more);
      assert buffer + lines[i] + [NEWLINE] == buffer + more;
      buffer := buffer + lines[i];
      buffer := buffer + [NEWLINE];
      CutWindow(buffer);
      if |buffer| > CAP {
        var cut := |buffer| - CAP;
        if !IsBoundary(buffer, cut) {
          assert TornWindow(Transcript(lines[..i + 1]));
          return Panicked;
        }
        buffer := buffer[cut..];
        if !overflowWarned {
          overflowWarned := true;
          warnings := warnings + 1;
        }
      }
    }
    assert lines[..|lines|] == lines;
    r := Tail(buffer, warnings);
  }

  lemma NothingYet(lines: seq<seq<Byte>>)
    requires lines == []
    ensures Transcript(lines) == [] && LastBytes([]) == [] && !TornWindow([])
  {
  }

  lemma CutWindow(s: seq<Byte>)
    ensures LastBytes(s) == if |s| > CAP then s[|s| - CAP..] else s
    ensures TornWindow(s) <==> |s| > CAP && !IsBoundary(s, |s| - CAP)
  {
  }

  // Dropping a prefix leaves the window alone while CAP bytes remain.
  lemma SuffixWindow(p: seq<Byte>, t: seq<Byte>)
    requires |t| > CAP
    ensures LastBytes(p + t) == LastBytes(t)
    ensures TornWindow(p + t) <==> TornWindow(t)
  {
    assert (p + t)[|p + t| - CAP..] == t[|t| - CAP..];
    assert (p + t)[|p + t| - CAP] == t[|t| - CAP];
  }

  // Appending to a window and cutting again is cutting the whole.
  lemma WindowOfWindow(s: seq<Byte>, more: seq<Byte>)
    requires more != []
    ensures LastBytes(LastBytes(s) + more) == LastBytes(s + more)
    ensures |LastBytes(s) + more| > CAP <==> |s + more| > CAP
    ensures TornWindow(LastBytes(s) + more) <==> TornWindow(s + more)
  {
    hide TornWindow, LastBytes;
    CutWindow(s);
    if |s| > CAP {
      var p, t := s[..|s| - CAP], LastBytes(s) + more;
      assert s + more == p + t;
      SuffixWindow(p, t);
    }
  }

  ghost predicate Ascii(s: seq<Byte>) {
    forall i :: 0 <= i < |s| ==> s[i] < 0x80
  }

  lemma {:induction false} AsciiTranscript(lines: seq<seq<Byte>>)
    requires forall i :: 0 <= i < |lines| ==> Ascii(lines[i])
    ensures Ascii(Transcript(lines))
  {
    if lines != [] {
      AsciiTranscript(lines[..|lines| - 1]);
    }
  }

  // ASCII output is never torn.
  lemma AsciiNotTorn(lines: seq<seq<Byte>>)
    requires forall i :: 0 <= i < |lines| ==> Ascii(lines[i])
    ensures !Torn(lines)
  {
    forall k | 0 <= k <= |lines| ensures !TornWindow(Transcript(lines[..k])) {
      AsciiTranscript(lines[..k]);
    }
  }

  // 2048 two-byte characters on one line are.
  lemma TornExample()
    ensures var line: seq<Byte> := seq(4096, i => if i % 2 == 0 then 0xC3 else 0xA9); Torn([line])
  {
    var line: seq<Byte> := seq(4096, i => if i % 2 == 0 then 0xC3 else 0xA9);
    assert [line][..1] == [line] && [line][..0] == [];
    TranscriptSnoc([line], 0);
    var all := Transcript([line]);
    assert all == line + [NEWLINE] && all[1] == 0xA9;
    assert TornWindow(Transcript([line][..1]));
  }

  // ---------- truncation on a character boundary ----------

  type Scalar = c: int | 0 <= c < 0x110000

  // The UTF-8 bytes of a character.
  function EncodeChar(c: Scalar): (r: seq<Byte>)
    ensures 1 <= |r| <= 4 && !(0x80 <= r[0] < 0xC0)
    ensures forall i :: 1 <= i < |r| ==> 0x80 <= r[i] < 0xC0
  {
    if c < 0x80 then [c]
    else if c < 0x800 then [0xC0 + c / 64, 0x80 + c % 64]
    else if c < 0x10000 then [0xE0 + c / 4096, 0x80 + c / 64 % 64, 0x80 + c % 64]
    else [0xF0 + c / 262144, 0x80 + c / 4096 % 64, 0x80 + c / 64 % 64, 0x80 + c % 64]
  }

  function Encode(text: seq<Scalar>): seq<Byte> {
    if text == [] then [] else Encode(text[..|text| - 1]) + EncodeChar(text[|text| - 1])
  }

  const ELLIPSIS: seq<Byte> := EncodeChar(0x2026)

  lemma EllipsisBytes()
    ensures ELLIPSIS == [0xE2, 0x80, 0xA6]
  {
  }

  lemma EncodePrefix(text: seq<Scalar>, k: nat)
    requires k < |text|
    ensures Encode(text[..k + 1]) == Encode(text[..k]) + EncodeChar(text[k])
  {
    assert text[..k + 1][..k] == text[..k];
  }

  lemma InsideChar(front: seq<Byte>, c: Scalar)
    ensures forall cut :: |front| < cut < |front + EncodeChar(c)| ==> !IsBoundary(front + EncodeChar(c), cut)
    ensures forall cut :: 0 <= cut < |front| ==> IsBoundary(front + EncodeChar(c), cut) == IsBoundary(front, cut)
  {
    var s := front + EncodeChar(c);
    assert forall cut :: |front| < cut < |s| ==> s[cut] == EncodeChar(c)[cut - |front|];
  }

  // The boundaries of a text are exactly the ends of its prefixes.
  lemma {:induction false} BoundaryIsPrefix(text: seq<Scalar>, cut: nat) returns (k: nat)
    requires cut <= |Encode(text)| && IsBoundary(Encode(text), cut)
    ensures k <= |text| && Encode(text)[..cut] == Encode(text[..k])
  {
    hide EncodeChar;
    var n := |text|;
    if text == [] {
      k := 0;
    } else {
      var front := Encode(text[..n - 1]);
      InsideChar(front, text[n - 1]);
      if cut <= |front| {
        k := BoundaryIsPrefix(text[..n - 1], cut);
        assert text[..n - 1][..k] == text[..k];
        assert Encode(text)[..cut] == front[..cut];
      } else {
        k := n;
        assert text[..n] == text;
      }
    }
  }

  lemma {:induction false} PrefixIsBoundary(text: seq<Scalar>, k: nat)
    requires k <= |text|
    ensures |Encode(text[..k])| <= |Encode(text)| && Encode(text)[..|Encode(text[..k])|] == Encode(text[..k])
    ensures IsBoundary(Encode(text), |Encode(text[..k])|)
  {
    if k == |text| {
      assert text[..k] == text;
    } else {
      var n := |text|;
      PrefixIsBoundary(text[..n - 1], k);
      assert text[..n - 1][..k] == text[..k];
      var cut := |Encode(text[..k])|;
      assert Encode(text)[..cut] == Encode(text[..n - 1])[..cut];
      assert cut < |Encode(text[..n - 1])| ==> Encode(text)[cut] == Encode(text[..n - 1])[cut];
      assert Encode(text)[|Encode(text[..n - 1])|] == EncodeChar(text[n - 1])[0];
    }
  }

  method TruncateSnippet(raw: seq<Byte>, maxBytes: nat) returns (r: seq<Byte>)
    ensures |raw| <= maxBytes ==> r == raw
    ensures |raw| > maxBytes ==>
      exists cut :: 0 <= cut <= maxBytes && IsBoundary(raw, cut) && r == raw[..cut] + ELLIPSIS &&
                                               forall j :: cut < j <= maxBytes ==> !IsBoundary(raw, j)
  {
    if |raw| <= maxBytes {
      return raw;
    }
    var cut := maxBytes;
    while cut > 0 && !IsBoundary(raw, cut)
      invariant 0 <= cut <= maxBytes && forall j :: cut < j <= maxBytes ==> !IsBoundary(raw, j)
    {
      cut := cut - 1;
    }
    return raw[..cut] + ELLIPSIS;
  }

  // On real text the cut keeps whole characters, and as many as fit.
  lemma TruncationKeepsCharacters(text: seq<Scalar>, maxBytes: nat, cut: nat) returns (k: nat)
    requires cut <= maxBytes < |Encode(text)| && IsBoundary(Encode(text), cut)
    requires forall j :: cut < j <= maxBytes ==> !IsBoundary(Encode(text), j)
    ensures k < |text| && Encode(text)[..cut] == Encode(text[..k]) && |Encode(text[..k + 1])| > maxBytes
  {
    k := BoundaryIsPrefix(text, cut);
    assert text[..|text|] == text;
    assert |Encode(text)[..cut]| == cut;
    EncodePrefix(text, k);
    PrefixIsBoundary(text, k + 1);
  }
}
