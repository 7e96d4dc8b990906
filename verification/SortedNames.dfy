/** sort.Strings over map keys. Go visits a map in any order, so what a sorted
    listing of its keys promises is that the order visited does not show. */
module SortedNames {

  /** String order: byte order of UTF-8 is scalar value order. */
  predicate Less(a: string, b: string) {
    if b == "" then false
    else if a == "" then true
    else a[0] < b[0] || (a[0] == b[0] && Less(a[1..], b[1..]))
  }

  /** Before at the first difference, or a proper beginning. */
  predicate LessAt(a: string, b: string, i: nat) {
    i <= |a| && i < |b| && a[..i] == b[..i] && (i == |a| || a[i] < b[i])
  }

  lemma {:induction false} LessMeans(a: string, b: string)
    ensures Less(a, b) <==> exists i :: LessAt(a, b, i)
  {
    if a == "" || b == "" {
      assert b != "" ==> LessAt(a, b, 0);
    } else {
      LessMeans(a[1..], b[1..]);
      if a[0] < b[0] { assert LessAt(a, b, 0); }
      if a[0] == b[0] {
        if i: nat :| LessAt(a[1..], b[1..], i) { LessAtCons(a, b, i); }
        if i: nat :| LessAt(a, b, i) { LessAtTail(a, b, i); }
      } else {
        assert forall i: nat :: LessAt(a, b, i) && i > 0 ==> a[..i][0] == b[..i][0];
      }
    }
  }

  lemma LessAtCons(a: string, b: string, i: nat)
    requires a != "" && b != "" && a[0] == b[0] && LessAt(a[1..], b[1..], i)
    ensures LessAt(a, b, i + 1)
  {
    assert a[..i + 1] == [a[0]] + a[1..][..i] && b[..i + 1] == [b[0]] + b[1..][..i];
  }

  lemma LessAtTail(a: string, b: string, i: nat)
    requires a != "" && b != "" && a[0] == b[0] && LessAt(a, b, i)
    ensures i > 0 && LessAt(a[1..], b[1..], i - 1)
  {
    assert i > 0;
    assert a[1..][..i - 1] == a[..i][1..] && b[1..][..i - 1] == b[..i][1..];
  }

  predicate StrictlySorted(names: seq<string>) {
    forall i, j :: 0 <= i < j < |names| ==> Less(names[i], names[j])
  }

  predicate NoDuplicates(names: seq<string>) {
    forall i, j :: 0 <= i < j < |names| ==> names[i] != names[j]
  }

  function Elements(names: seq<string>): set<string> {
    set n | n in names
  }

  /** names lists exactly the given keys, in order. */
  predicate ListsInOrder(names: seq<string>, keys: set<string>) {
    StrictlySorted(names) && Elements(names) == keys
  }

  function Insert(x: string, names: seq<string>): seq<string> {
    if names == [] then [x]
    else if Less(x, names[0]) then [x] + names
    else [names[0]] + Insert(x, names[1..])
  }

  /** sort.Strings. */
  function Sort(names: seq<string>): seq<string> {
    if names == [] then [] else Insert(names[0], Sort(names[1..]))
  }

  lemma {:induction false} LessTransitive(a: string, b: string, c: string)
    requires Less(a, b) && Less(b, c)
    ensures Less(a, c)
  {
    if a != "" && a[0] == b[0] && b[0] == c[0] { LessTransitive(a[1..], b[1..], c[1..]); }
  }

  lemma {:induction false} LessTotal(a: string, b: string)
    ensures a == b || Less(a, b) || Less(b, a)
  {
    if a != "" && b != "" && a[0] == b[0] {
      LessTotal(a[1..], b[1..]);
      assert a == [a[0]] + a[1..] && b == [b[0]] + b[1..];
    }
  }

  lemma {:induction false} LessIrreflexive(a: string)
    ensures !Less(a, a)
  {
    if a != "" { LessIrreflexive(a[1..]); }
  }

  lemma SortedTail(names: seq<string>)
    requires names != [] && StrictlySorted(names)
    ensures StrictlySorted(names[1..])
    ensures names[0] !in names[1..]
    ensures Elements(names[1..]) == Elements(names) - {names[0]}
  {
    LessIrreflexive(names[0]);
    assert names == [names[0]] + names[1..];
  }

  lemma {:induction false} InsertSorts(x: string, names: seq<string>)
    requires StrictlySorted(names) && x !in names
    ensures ListsInOrder(Insert(x, names), Elements(names) + {x})
  {
    if names == [] {
    } else if Less(x, names[0]) {
      forall i | 0 <= i < |names| ensures Less(x, names[i]) {
        if i > 0 { LessTransitive(x, names[0], names[i]); }
      }
    } else {
      SortedTail(names);
      InsertSorts(x, names[1..]);
      LessTotal(x, names[0]);
      var rest := Insert(x, names[1..]);
      forall j | 0 <= j < |rest| ensures Less(names[0], rest[j]) {
        assert rest[j] in Elements(rest);
      }
      assert Elements([names[0]] + rest) == {names[0]} + Elements(rest);
    }
  }

  lemma {:induction false} SortSorts(names: seq<string>)
    requires NoDuplicates(names)
    ensures ListsInOrder(Sort(names), Elements(names))
  {
    if names != [] {
      SortSorts(names[1..]);
      assert names[0] !in Elements(names[1..]);
      InsertSorts(names[0], Sort(names[1..]));
      assert names == [names[0]] + names[1..];
    }
  }

  lemma SortedHasNoDuplicates(names: seq<string>)
    requires StrictlySorted(names)
    ensures NoDuplicates(names)
  {
    forall i, j | 0 <= i < j < |names| ensures names[i] != names[j] { LessIrreflexive(names[i]); }
  }

  lemma NoElements(names: seq<string>)
    ensures Elements(names) == {} ==> names == []
  {
    if names != [] { assert names[0] in Elements(names); }
  }

  /** Only one sequence lists a set in order. */
  lemma {:induction false} InOrderUnique(a: seq<string>, b: seq<string>)
    requires StrictlySorted(a) && StrictlySorted(b) && Elements(a) == Elements(b)
    ensures a == b
  {
    if a == [] {
      NoElements(b);
    } else {
      assert a[0] in Elements(b);
      assert b != [];
      assert b[0] in Elements(a);
      if a[0] != b[0] {
        var i :| 0 <= i < |a| && a[i] == b[0];
        var j :| 0 <= j < |b| && b[j] == a[0];
        assert Less(a[0], a[i]) && Less(b[0], b[j]);
        LessTransitive(a[0], b[0], a[0]);
        LessIrreflexive(a[0]);
        assert false;
      }
      SortedTail(a);
      SortedTail(b);
      InOrderUnique(a[1..], b[1..]);
      assert a == [a[0]] + a[1..] && b == [b[0]] + b[1..];
    }
  }

  /** The keys of a map, in order. */
  ghost function InOrder(keys: set<string>): (names: seq<string>)
    ensures ListsInOrder(names, keys)
  {
    if keys == {} then []
    else
      var x :| x in keys;
      InsertSorts(x, InOrder(keys - {x}));
      Insert(x, InOrder(keys - {x}))
  }

  /** Collecting keys in any order and sorting them gives the one ordered list. */
  lemma SortIsInOrder(names: seq<string>, keys: set<string>)
    requires NoDuplicates(names) && Elements(names) == keys
    ensures Sort(names) == InOrder(keys)
  {
    SortSorts(names);
    InOrderUnique(Sort(names), InOrder(keys));
  }

  /** Collects map keys in whatever order they come and sorts them: the loop
      that writeRevocations, ledger.rewrite and registry.listing share. */
  method CollectSorted(keys: set<string>) returns (names: seq<string>)
    ensures names == InOrder(keys)
    ensures ListsInOrder(names, keys)
  {
    var collected: seq<string> := [];
    var todo := keys;
    while todo != {}
      invariant todo <= keys && NoDuplicates(collected) && Elements(collected) == keys - todo
      decreases todo
    {
      var name :| name in todo;
      assert name !in Elements(collected);
      assert Elements(collected + [name]) == Elements(collected) + {name};
      collected := collected + [name];
      todo := todo - {name};
    }
    SortIsInOrder(collected, keys);
    names := Sort(collected);
  }
}
