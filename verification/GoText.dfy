/** The text primitives of Go's strings, unicode and bufio packages that the
    line-oriented files depend on. A text is a sequence of Unicode scalar
    values; sizes are counted in UTF-8 bytes, as len does. */
module GoText {

  /** unicode.IsSpace: the White_Space property. */
  predicate IsSpace(c: char) {
    var u := c as int;
    || 0x09 <= u <= 0x0D || u == 0x20 || u == 0x85 || u == 0xA0 || u == 0x1680
    || 0x2000 <= u <= 0x200A || u == 0x2028 || u == 0x2029 || u == 0x202F
    || u == 0x205F || u == 0x3000
  }

  function TrimLeft(s: string): string {
    if s != "" && IsSpace(s[0]) then TrimLeft(s[1..]) else s
  }

  function TrimRight(s: string): string {
    if s != "" && IsSpace(s[|s| - 1]) then TrimRight(s[..|s| - 1]) else s
  }

  /** strings.TrimSpace. */
  function TrimSpace(s: string): string {
    TrimRight(TrimLeft(s))
  }

  /** No white space at either end. */
  predicate Trimmed(s: string) {
    s == "" || (!IsSpace(s[0]) && !IsSpace(s[|s| - 1]))
  }

  predicate HasPrefix(s: string, prefix: string) {
    prefix <= s
  }

  datatype CutResult = CutResult(before: string, after: string, found: bool)

  /** strings.Cut on a one-character separator. */
  function Cut(s: string, sep: char): (r: CutResult)
    ensures r.found ==> |r.after| < |s|
  {
    if s == "" then CutResult("", "", false)
    else if s[0] == sep then CutResult("", s[1..], true)
    else
      var r := Cut(s[1..], sep);
      r.(before := [s[0]] + r.before)
  }

  function Utf8Size(c: char): nat {
    var u := c as int;
    if u < 0x80 then 1 else if u < 0x800 then 2 else if u < 0x10000 then 3 else 4
  }

  /** len of the UTF-8 form. */
  function ByteLen(s: string): (n: nat)
    ensures |s| <= n
  {
    if s == "" then 0 else Utf8Size(s[0]) + ByteLen(s[1..])
  }

  /** The longest line bufio.Scanner accepts is one byte short of this. */
  const MAX_SCAN_TOKEN := 65536

  /** The text cut at its newlines; a final empty piece is not a line. */
  function RawLines(content: string): seq<string>
    decreases |content|
  {
    if content == "" then []
    else
      var r := Cut(content, '\n');
      [r.before] + (if r.found then RawLines(r.after) else [])
  }

  /** What Scanner.Text returns for a raw line. */
  function DropCR(line: string): string {
    if line != "" && line[|line| - 1] == '\r' then line[..|line| - 1] else line
  }

  /** The line a reader works on after TrimSpace(sc.Text()). */
  function CleanLine(raw: string): string {
    TrimSpace(DropCR(raw))
  }

  // ---- Trimming ----

  lemma {:induction false} TrimLeftPart(s: string) returns (i: nat)
    ensures i <= |s| && TrimLeft(s) == s[i..]
    ensures i < |s| ==> !IsSpace(s[i])
    ensures s != "" && !IsSpace(s[0]) ==> i == 0
  {
    if s != "" && IsSpace(s[0]) {
      var j := TrimLeftPart(s[1..]);
      i := j + 1;
    } else {
      i := 0;
    }
  }

  lemma {:induction false} TrimRightPart(s: string) returns (j: nat)
    ensures j <= |s| && TrimRight(s) == s[..j]
    ensures 0 < j ==> !IsSpace(s[j - 1])
    ensures s != "" && !IsSpace(s[0]) ==> 0 < j
  {
    if s != "" && IsSpace(s[|s| - 1]) {
      j := TrimRightPart(s[..|s| - 1]);
      assert s[..|s| - 1][..j] == s[..j];
    } else {
      j := |s|;
      assert s[..j] == s;
    }
  }

  /** TrimSpace returns a trimmed slice of its input. */
  lemma TrimSpacePart(s: string) returns (i: nat, j: nat)
    ensures i <= j <= |s| && TrimSpace(s) == s[i..j]
    ensures Trimmed(TrimSpace(s))
    ensures s != "" && !IsSpace(s[0]) ==> i == 0 && 0 < j
  {
    i := TrimLeftPart(s);
    var k := TrimRightPart(s[i..]);
    j := i + k;
    assert s[i..][..k] == s[i..j];
  }

  /** White space only. */
  predicate AllSpace(s: string) { forall c :: c in s ==> IsSpace(c) }

  lemma {:induction false} TrimLeftConcat(a: string, b: string)
    ensures TrimLeft(a + b) == if AllSpace(a) then TrimLeft(b) else TrimLeft(a) + b
  {
    if a == "" {
      assert a + b == b;
    } else {
      assert (a + b)[1..] == a[1..] + b;
      assert a == [a[0]] + a[1..];
      if IsSpace(a[0]) { TrimLeftConcat(a[1..], b); }
    }
  }

  lemma {:induction false} TrimRightConcat(a: string, b: string)
    ensures TrimRight(a + b) == if AllSpace(b) then TrimRight(a) else a + TrimRight(b)
    decreases |b|
  {
    if b == "" {
      assert a + b == a;
    } else {
      var n := |b| - 1;
      assert (a + b)[..|a| + n] == a + b[..n];
      assert b == b[..n] + [b[n]];
      if IsSpace(b[n]) { TrimRightConcat(a, b[..n]); }
    }
  }

  lemma {:induction false} TrimAllSpace(s: string)
    ensures AllSpace(s) <==> TrimLeft(s) == ""
    ensures AllSpace(s) <==> TrimSpace(s) == ""
  {
    var i := TrimLeftPart(s);
    if i < |s| {
      var j := TrimRightPart(s[i..]);
      assert s[i] in s;
    } else {
      TrimLeftConcat(s, "");
      if s != "" {
        TrimAllSpace(s[1..]);
        assert s == [s[0]] + s[1..];
      }
    }
  }

  /** The carriage return a scanner drops is white space anyway. */
  lemma CleanLineIsTrimmed(raw: string)
    ensures CleanLine(raw) == TrimSpace(raw)
  {
    if raw != "" && raw[|raw| - 1] == '\r' {
      SpaceBehind(raw[..|raw| - 1], '\r');
      assert raw == raw[..|raw| - 1] + ['\r'];
    }
  }

  lemma SpaceBehind(s: string, c: char)
    requires IsSpace(c)
    ensures TrimSpace(s + [c]) == TrimSpace(s)
  {
    TrimLeftConcat(s, [c]);
    TrimAllSpace(s);
    TrimAllSpace([c]);
    TrimRightConcat(TrimLeft(s), [c]);
  }

  lemma TrimSpaceOfTrimmed(s: string)
    requires Trimmed(s)
    ensures TrimSpace(s) == s
  {}

  /** Trailing white space after trimmed text is all that TrimSpace removes. */
  lemma TrimTrailingSpace(s: string, c: char)
    requires s != "" && !IsSpace(s[0]) && IsSpace(c)
    ensures TrimSpace(s + [c]) == TrimRight(s)
  {
    assert (s + [c])[..|s|] == s;
    assert (s + [c])[0] == s[0];
  }

  // ---- Sizes ----

  lemma {:induction false} ByteLenConcat(a: string, b: string)
    ensures ByteLen(a + b) == ByteLen(a) + ByteLen(b)
  {
    if a == "" {
      assert a + b == b;
    } else {
      assert (a + b)[1..] == a[1..] + b;
      ByteLenConcat(a[1..], b);
    }
  }

  lemma ByteLenOfPart(a: string, b: string, c: string)
    ensures ByteLen(b) <= ByteLen(a + b + c)
  {
    ByteLenConcat(a, b);
    ByteLenConcat(a + b, c);
  }

  // ---- Cutting and scanning ----

  /** The pieces Cut returns are the text, and the first has no separator. */
  lemma {:induction false} CutParts(s: string, sep: char)
    ensures var r := Cut(s, sep);
      && sep !in r.before
      && (if r.found then s == r.before + [sep] + r.after else s == r.before && r.after == "")
  {
    if s != "" && s[0] != sep { CutParts(s[1..], sep); }
  }

  lemma {:induction false} CutAt(a: string, sep: char, b: string)
    requires sep !in a
    ensures Cut(a + [sep] + b, sep) == CutResult(a, b, true)
  {
    if a == "" {
      assert a + [sep] + b == [sep] + b;
    } else {
      assert (a + [sep] + b)[1..] == a[1..] + [sep] + b;
      CutAt(a[1..], sep, b);
    }
  }

  lemma {:induction false} CutAbsent(a: string, sep: char)
    requires sep !in a
    ensures Cut(a, sep) == CutResult(a, "", false)
  {
    if a != "" { CutAbsent(a[1..], sep); }
  }

  lemma RawLinesCons(line: string, rest: string)
    requires '\n' !in line
    ensures RawLines(line + "\n" + rest) == [line] + RawLines(rest)
  {
    CutAt(line, '\n', rest);
    assert line + "\n" + rest == line + ['\n'] + rest;
  }

  /** Nothing, or lines that are all ended. */
  predicate WholeLines(content: string) {
    content == "" || content[|content| - 1] == '\n'
  }

  /** The unfinished last line. */
  function Tail(content: string): string {
    if WholeLines(content) then ""
    else Tail(content[..|content| - 1]) + [content[|content| - 1]]
  }

  lemma {:induction false} TailPart(content: string) returns (whole: string)
    ensures WholeLines(whole) && '\n' !in Tail(content) && content == whole + Tail(content)
  {
    if WholeLines(content) {
      whole := content;
    } else {
      whole := TailPart(content[..|content| - 1]);
      assert content == content[..|content| - 1] + [content[|content| - 1]];
    }
  }

  lemma RawLinesOfLine(line: string)
    requires '\n' !in line
    ensures RawLines(line) == if line == "" then [] else [line]
    ensures RawLines(line + "\n") == [line]
  {
    CutAbsent(line, '\n');
    RawLinesCons(line, "");
    assert line + "\n" + "" == line + "\n";
  }

  /** Whole lines start with a line, and what follows is whole lines again,
      also with more text appended. */
  lemma FirstLine(a: string, b: string) returns (line: string, rest: string)
    requires a != "" && WholeLines(a)
    ensures |rest| < |a| && WholeLines(rest)
    ensures RawLines(a) == [line] + RawLines(rest)
    ensures RawLines(a + b) == [line] + RawLines(rest + b)
  {
    var r := Cut(a, '\n');
    CutParts(a, '\n');
    line, rest := r.before, r.after;
    assert r.found;
    if rest != "" { assert a[|a| - 1] == rest[|rest| - 1]; }
    RawLinesCons(line, rest);
    RawLinesCons(line, rest + b);
    assert a == line + "\n" + rest;
    assert a + b == line + "\n" + (rest + b);
  }

  lemma ConcatAssociates<T>(x: seq<T>, y: seq<T>, z: seq<T>)
    ensures x + y + z == x + (y + z)
  {}

  /** Appending to whole lines adds the appended text's lines. */
  lemma {:induction false} RawLinesConcat(a: string, b: string)
    requires WholeLines(a)
    ensures RawLines(a + b) == RawLines(a) + RawLines(b)
    decreases |a|
  {
    if a == "" {
      assert a + b == b;
    } else {
      var line, rest := FirstLine(a, b);
      RawLinesConcat(rest, b);
      ConcatAssociates([line], RawLines(rest), RawLines(b));
    }
  }

  lemma {:induction false} RawLinesHaveNoNewline(content: string)
    ensures forall l :: l in RawLines(content) ==> '\n' !in l
    decreases |content|
  {
    if content != "" {
      var r := Cut(content, '\n');
      CutParts(content, '\n');
      if r.found { RawLinesHaveNoNewline(r.after); }
    }
  }

  /** What a cleaned line keeps of the raw one. */
  lemma CleanLineFacts(raw: string)
    ensures Trimmed(CleanLine(raw))
    ensures ByteLen(CleanLine(raw)) <= ByteLen(raw)
    ensures forall c :: c in CleanLine(raw) ==> c in raw
  {
    var l := DropCR(raw);
    var i, j := TrimSpacePart(l);
    ByteLenOfPart(raw[..i], raw[i..j], raw[j..]);
    assert raw == raw[..i] + raw[i..j] + raw[j..];
    assert l[i..j] == raw[i..j];
  }

  lemma CleanLineOfTrimmed(raw: string)
    requires Trimmed(raw)
    ensures CleanLine(raw) == raw
  {
    assert IsSpace('\r');
    TrimSpaceOfTrimmed(raw);
  }

  // ---- The first word of a line ----

  /** w is what stands before the first space, or all there is. */
  predicate FirstWord(line: string, w: string) {
    w <= line && ' ' !in w && (|w| == |line| || line[|w|] == ' ')
  }

  lemma FirstWordIsCut(line: string)
    ensures var r := Cut(line, ' ');
      && FirstWord(line, r.before) && (forall w :: FirstWord(line, w) ==> w == r.before)
      && (r.found <==> ' ' in line)
      && TrimSpace(r.after) == TrimSpace(line[|r.before|..])
  {
    var r := Cut(line, ' ');
    CutParts(line, ' ');
    forall w | FirstWord(line, w) ensures w == r.before { FirstWordIsOne(line, w); }
    if r.found { TrimBehind(line, r.before, r.after); }
  }

  lemma FirstWordIsOne(line: string, w: string)
    requires FirstWord(line, w)
    ensures Cut(line, ' ').before == w
  {
    if |w| == |line| {
      assert w == line;
      CutAbsent(w, ' ');
    } else {
      assert line == w + [' '] + line[|w| + 1..];
      CutAt(w, ' ', line[|w| + 1..]);
    }
  }

  lemma TrimBehind(line: string, before: string, after: string)
    requires line == before + [' '] + after
    ensures TrimSpace(after) == TrimSpace(line[|before|..])
  {
    assert line[|before|..] == " " + after;
    assert IsSpace(' ') && AllSpace(" ");
    TrimLeftConcat(" ", after);
  }
}
