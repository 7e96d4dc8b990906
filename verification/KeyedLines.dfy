/** The shape both files the proxy keeps are written in: a header of comment
    lines, then one "key value" line per map entry, in key order. */
module KeyedLines {
  import opened GoText
  import opened SortedNames

  // ---- The header: lines both readers skip ----

  predicate CommentLine(line: string) {
    && line != "" && line[0] == '#' && '\n' !in line
    && !IsSpace(line[|line| - 1]) && |line| < 100
  }

  /** Nothing depends on the words of a header, so it is any comment lines. */
  type Header = lines: seq<string> | forall l :: l in lines ==> CommentLine(l)

  function Comments(lines: seq<string>): string {
    if lines == [] then "" else lines[0] + "\n" + Comments(lines[1..])
  }

  // ---- The table ----

  function EntryLine(key: string, value: string): string {
    key + " " + value
  }

  function Body(keys: seq<string>, m: map<string, string>): string
    requires forall k :: k in keys ==> k in m
  {
    if keys == [] then ""
    else EntryLine(keys[0], m[keys[0]]) + "\n" + Body(keys[1..], m)
  }

  function BodyLines(keys: seq<string>, m: map<string, string>): seq<string>
    requires forall k :: k in keys ==> k in m
  {
    if keys == [] then [] else [EntryLine(keys[0], m[keys[0]])] + BodyLines(keys[1..], m)
  }

  ghost function Render(header: Header, m: map<string, string>): string {
    Comments(header) + Body(InOrder(m.Keys), m)
  }

  predicate OneLine(key: string, value: string) {
    '\n' !in key && '\n' !in value
  }

  lemma {:induction false} BodyIsItsLines(keys: seq<string>, m: map<string, string>)
    requires forall k :: k in keys ==> k in m && OneLine(k, m[k])
    ensures RawLines(Body(keys, m)) == BodyLines(keys, m)
  {
    if keys != [] {
      BodyIsItsLines(keys[1..], m);
      RawLinesCons(EntryLine(keys[0], m[keys[0]]), Body(keys[1..], m));
    }
  }

  /** Rendering, and appending to the rendering, stays whole lines. */
  lemma {:induction false} BodyIsWholeLines(keys: seq<string>, m: map<string, string>)
    requires forall k :: k in keys ==> k in m
    ensures WholeLines(Body(keys, m))
  {
    if keys != [] { BodyIsWholeLines(keys[1..], m); }
  }

  lemma {:induction false} BodySnoc(keys: seq<string>, k: string, m: map<string, string>)
    requires k in m && forall x :: x in keys ==> x in m
    ensures Body(keys + [k], m) == Body(keys, m) + EntryLine(k, m[k]) + "\n"
  {
    if keys == [] {
      assert keys + [k] == [k];
      assert Body([k][1..], m) == "";
      assert Body([k], m) == EntryLine(k, m[k]) + "\n";
    } else {
      assert (keys + [k])[1..] == keys[1..] + [k];
      BodySnoc(keys[1..], k, m);
    }
  }

  /** The strings.Builder loop of writeRevocations and ledger.rewrite. */
  method BuildTable(header: Header, m: map<string, string>) returns (content: string)
    ensures content == Render(header, m)
  {
    var sorted := CollectSorted(m.Keys);
    assert forall k :: k in sorted ==> k in Elements(sorted);
    content := BuildBody(Comments(header), sorted, m);
  }

  method BuildBody(header: string, keys: seq<string>, m: map<string, string>) returns (content: string)
    requires forall k :: k in keys ==> k in m
    ensures content == header + Body(keys, m)
  {
    content := header;
    var i := 0;
    while i < |keys|
      invariant 0 <= i <= |keys|
      invariant content == header + Body(keys[..i], m)
    {
      var before := content;
      content := content + EntryLine(keys[i], m[keys[i]]) + "\n";
      BodySnoc(keys[..i], keys[i], m);
      assert keys[..i + 1] == keys[..i] + [keys[i]];
      i := i + 1;
    }
    assert keys[..i] == keys;
  }

  /** The text of a table, line by line: the header's lines, then one line for
      each key, in strict order. */
  lemma TableIsLaidOut(header: Header, m: map<string, string>)
    requires forall k :: k in m ==> OneLine(k, m[k])
    ensures var keys := InOrder(m.Keys); var lines := RawLines(Render(header, m));
      && |lines| == |header| + |keys| && lines[..|header|] == header
      && (forall i :: 0 <= i < |keys| ==> keys[i] in m && lines[|header| + i] == keys[i] + " " + m[keys[i]])
  {
    var keys := InOrder(m.Keys);
    assert forall k :: k in keys ==> k in Elements(keys);
    CommentsAreTheirLines(header);
    RawLinesConcat(Comments(header), Body(keys, m));
    BodyIsItsLines(keys, m);
    LineOfEachKey(keys, m);
  }

  lemma {:induction false} LineOfEachKey(keys: seq<string>, m: map<string, string>)
    requires forall k :: k in keys ==> k in m
    ensures |BodyLines(keys, m)| == |keys|
    ensures forall i :: 0 <= i < |keys| ==> BodyLines(keys, m)[i] == keys[i] + " " + m[keys[i]]
  {
    if keys != [] { LineOfEachKey(keys[1..], m); }
  }

  /** The map that reading the entries of keys, in turn, builds on acc. */
  function AddAll(keys: seq<string>, m: map<string, string>, acc: map<string, string>): map<string, string>
    requires forall k :: k in keys ==> k in m
  {
    if keys == [] then acc else AddAll(keys[1..], m, acc[keys[0] := m[keys[0]]])
  }

  lemma {:induction false} AddAllAt(keys: seq<string>, m: map<string, string>, acc: map<string, string>)
    requires forall k :: k in keys ==> k in m
    ensures var r := AddAll(keys, m, acc);
      && r.Keys == acc.Keys + Elements(keys)
      && (forall k :: k in r ==> r[k] == if k in keys then m[k] else acc[k])
  {
    if keys != [] {
      AddAllAt(keys[1..], m, acc[keys[0] := m[keys[0]]]);
      assert keys == [keys[0]] + keys[1..];
    }
  }

  lemma AddAllIsAll(m: map<string, string>)
    ensures AddAll(InOrder(m.Keys), m, map[]) == m
  {
    var keys := InOrder(m.Keys);
    assert forall k :: k in keys <==> k in Elements(keys);
    AddAllAt(keys, m, map[]);
  }

  // ---- The value of a line ----

  lemma ValueFits(line: string, key: string, after: string)
    requires line == key + [' '] + after
    ensures ByteLen(EntryLine(key, TrimSpace(after))) <= ByteLen(line)
  {
    var i, j := TrimSpacePart(after);
    var head := key + " ";
    ByteLenOfPart(after[..i], after[i..j], after[j..]);
    assert after == after[..i] + after[i..j] + after[j..];
    ByteLenConcat(head, after);
    ByteLenConcat(head, after[i..j]);
    assert line == head + after;
  }

  /** Trimmed text with a space in it has text after that space. */
  lemma AfterSpaceIsText(line: string, before: string, after: string)
    requires Trimmed(line) && line == before + [' '] + after
    ensures TrimSpace(after) != ""
  {
    assert IsSpace(' ');
    assert line[|line| - 1] == if after == "" then ' ' else after[|after| - 1];
    var last := |after| - 1;
    var i := TrimLeftPart(after);
    TrimAllSpace(after);
  }

  // ---- The header ----

  lemma {:induction false} CommentsAreTheirLines(lines: Header)
    ensures WholeLines(Comments(lines)) && RawLines(Comments(lines)) == lines
  {
    if lines != [] {
      assert lines[0] in lines;
      CommentsAreTheirLines(lines[1..]);
      RawLinesCons(lines[0], Comments(lines[1..]));
    }
  }

  lemma CommentLineCleaned(line: string)
    requires CommentLine(line)
    ensures CleanLine(line) == line && HasPrefix(line, "#") && ByteLen(line) < MAX_SCAN_TOKEN
  {
    CleanLineOfTrimmed(line);
    ByteLenAtMost(line);
  }

  lemma {:induction false} ByteLenAtMost(s: string)
    ensures ByteLen(s) <= 4 * |s|
  {
    if s != "" { ByteLenAtMost(s[1..]); }
  }
}
