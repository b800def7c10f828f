/** ReverseNodeRange of noderange.py: a set of nodes is written as static groups and
    bracketed names, and expanding the result gives the set back. */
module ReverseNodeRange {
  import opened Common
  import opened NumberText
  import opened BracketModel
  import opened BracketRoundTrip
  import opened BracketCorollaries
  import opened NodeNames
  import opened NodeRange

  // ----- the human order of names -----

  function Lower(s: string): seq<int> {
    seq(|s|, i requires 0 <= i < |s| => if 'A' <= s[i] <= 'Z' then s[i] as int + 32 else s[i] as int)
  }

  /** The two cases of a letter are one, and nothing else is. */
  lemma OnlyCaseIsIgnored(c: char, d: char)
    ensures Lower([c]) == Lower([d]) <==>
              c == d || (c as int + 32 == d as int && 'A' <= c <= 'Z') || (d as int + 32 == c as int && 'A' <= d <= 'Z')
  {
    assert Lower([c]) == Lower([d]) <==> Lower([c])[0] == Lower([d])[0];
  }

  /** humanify_nodename: lower-case texts and numbers in turn. */
  function Key(texts: seq<string>, nums: Tuple): seq<seq<int>>
    requires |texts| == |nums| + 1 && IsTuple(nums)
  {
    if nums == [] then [Lower(texts[0])]
    else [Lower(texts[0]), [Value(nums[0])]] + Key(texts[1..], nums[1..])
  }

  function HumanKey(name: string): seq<seq<int>> {
    Key(Split(name).texts, Split(name).nums)
  }

  predicate PieceLess(a: seq<int>, b: seq<int>) {
    b != [] && (a == [] || a[0] < b[0] || (a[0] == b[0] && PieceLess(a[1..], b[1..])))
  }

  /** Lists compare by their first difference. */
  predicate KeyAtMost(a: seq<seq<int>>, b: seq<seq<int>>) {
    a == [] || (b != [] && (PieceLess(a[0], b[0]) || (a[0] == b[0] && KeyAtMost(a[1..], b[1..]))))
  }

  /** A sorted listing of a set of names; names of equal key may come in either order. */
  ghost predicate Sorts(order: seq<string>, names: set<string>) {
    && (forall s :: s in order <==> s in names)
    && (forall i, j :: 0 <= i < j < |order| ==> order[i] != order[j])
    && (forall i :: 0 < i < |order| ==> KeyAtMost(HumanKey(order[i - 1]), HumanKey(order[i])))
  }

  lemma NotLessThanItself(a: seq<int>)
    ensures !PieceLess(a, a)
  {
  }

  lemma PiecesAreOrdered(a: seq<int>, b: seq<int>)
    ensures a == b || PieceLess(a, b) || PieceLess(b, a)
  {
    if a != [] && b != [] && a[0] == b[0] {
      PiecesAreOrdered(a[1..], b[1..]);
    }
  }

  lemma KeysAreOrdered(a: seq<seq<int>>, b: seq<seq<int>>)
    ensures KeyAtMost(a, b) || KeyAtMost(b, a)
  {
    if a != [] && b != [] {
      PiecesAreOrdered(a[0], b[0]);
      if a[0] == b[0] {
        KeysAreOrdered(a[1..], b[1..]);
      }
    }
  }

  function Inserted(rest: seq<string>, x: string, i: nat, k: nat): string
    requires i <= |rest| && k <= |rest|
  {
    if k < i then rest[k] else if k == i then x else rest[k - 1]
  }

  lemma InsertKeepsOrder(rest: seq<string>, x: string, i: nat)
    requires i <= |rest| && forall k :: 0 < k < |rest| ==> KeyAtMost(HumanKey(rest[k - 1]), HumanKey(rest[k]))
    requires i > 0 ==> KeyAtMost(HumanKey(rest[i - 1]), HumanKey(x))
    requires i < |rest| ==> KeyAtMost(HumanKey(x), HumanKey(rest[i]))
    ensures var order := rest[..i] + [x] + rest[i..];
      forall k :: 0 < k < |order| ==> KeyAtMost(HumanKey(order[k - 1]), HumanKey(order[k]))
  {
    hide KeyAtMost, HumanKey;
    var order := rest[..i] + [x] + rest[i..];
    forall k | 0 < k < |order|
      ensures KeyAtMost(HumanKey(order[k - 1]), HumanKey(order[k]))
    {
      assert order[k] == Inserted(rest, x, i, k) && order[k - 1] == Inserted(rest, x, i, k - 1);
    }
  }

  lemma InsertKeepsDistinct(rest: seq<string>, x: string, i: nat)
    requires i <= |rest| && x !in rest && forall k, j :: 0 <= k < j < |rest| ==> rest[k] != rest[j]
    ensures var order := rest[..i] + [x] + rest[i..];
      forall k, j :: 0 <= k < j < |order| ==> order[k] != order[j]
  {
    var order := rest[..i] + [x] + rest[i..];
    assert forall k :: 0 <= k < |order| ==> order[k] == Inserted(rest, x, i, k);
    forall k, j | 0 <= k < j < |order|
      ensures Inserted(rest, x, i, k) != Inserted(rest, x, i, j)
    {
    }
  }

  lemma InsertAdds(rest: seq<string>, x: string, i: nat)
    requires i <= |rest|
    ensures forall s :: s in rest[..i] + [x] + rest[i..] <==> s in rest || s == x
  {
    assert rest == rest[..i] + rest[i..];
  }

  lemma InsertSorts(rest: seq<string>, names: set<string>, x: string, i: nat)
    requires Sorts(rest, names) && x !in names && i <= |rest|
    requires i > 0 ==> KeyAtMost(HumanKey(rest[i - 1]), HumanKey(x))
    requires i < |rest| ==> KeyAtMost(HumanKey(x), HumanKey(rest[i]))
    ensures Sorts(rest[..i] + [x] + rest[i..], names + {x})
  {
    hide KeyAtMost, HumanKey;
    var order := rest[..i] + [x] + rest[i..];
    InsertAdds(rest, x, i);
    assert forall s :: s in order <==> s in names + {x};
    InsertKeepsDistinct(rest, x, i);
    InsertKeepsOrder(rest, x, i);
  }

  /** Every set of names has a sorted listing. */
  lemma {:induction false} SortingExists(names: set<string>) returns (order: seq<string>)
    ensures Sorts(order, names)
    decreases |names|
  {
    hide KeyAtMost, HumanKey;
    order := [];
    if x :| x in names {
      var rest := SortingExists(names - {x});
      var i := 0;
      while i < |rest| && !KeyAtMost(HumanKey(x), HumanKey(rest[i]))
        invariant i <= |rest|
        invariant i > 0 ==> KeyAtMost(HumanKey(rest[i - 1]), HumanKey(x))
      {
        KeysAreOrdered(HumanKey(x), HumanKey(rest[i]));
        i := i + 1;
      }
      order := rest[..i] + [x] + rest[i..];
      InsertSorts(rest, names - {x}, x, i);
      assert names - {x} + {x} == names;
    }
  }

  lemma BelowLater(zs: Tuple, xs: Tuple, f: nat)
    requires |zs| == |xs| > 0 && IsTuple(zs) && IsTuple(xs) && f < |zs[1..]|
    requires Value(zs[0]) == Value(xs[0]) && Value(zs[1..][f]) < Value(xs[1..][f])
    requires forall g :: 0 <= g < f ==> Value(zs[1..][g]) == Value(xs[1..][g])
    ensures Below(zs, xs)
  {
    hide Value;
    forall g | 0 <= g < f + 1
      ensures Value(zs[g]) == Value(xs[g])
    {
      if g > 0 {
        assert zs[g] == zs[1..][g - 1] && xs[g] == xs[1..][g - 1];
      }
    }
    assert Value(zs[f + 1]) < Value(xs[f + 1]);
  }

  lemma BelowByFirst(zs: Tuple, xs: Tuple)
    requires |zs| == |xs| > 0 && IsTuple(zs) && IsTuple(xs)
    ensures Below(zs, xs)
       <==> Value(zs[0]) < Value(xs[0]) || (Value(zs[0]) == Value(xs[0]) && Below(zs[1..], xs[1..]))
  {
    hide Value;
    if Value(zs[0]) == Value(xs[0]) && Below(zs[1..], xs[1..]) {
      var f :| 0 <= f < |zs[1..]| && Value(zs[1..][f]) < Value(xs[1..][f])
               && forall g :: 0 <= g < f ==> Value(zs[1..][g]) == Value(xs[1..][g]);
      BelowLater(zs, xs, f);
    }
    if f :| 1 <= f < |zs| && Value(zs[f]) < Value(xs[f]) && forall g :: 0 <= g < f ==> Value(zs[g]) == Value(xs[g]) {
      assert Value(zs[1..][f - 1]) < Value(xs[1..][f - 1]);
    }
  }

  lemma SameByFirst(zs: Tuple, xs: Tuple)
    requires |zs| == |xs| > 0 && IsTuple(zs) && IsTuple(xs)
    ensures SameNumbers(zs, xs) <==> Value(zs[0]) == Value(xs[0]) && SameNumbers(zs[1..], xs[1..])
  {
    hide Value;
    if SameNumbers(zs[1..], xs[1..]) && Value(zs[0]) == Value(xs[0]) {
      forall f | 0 <= f < |zs|
        ensures Value(zs[f]) == Value(xs[f])
      {
        if f > 0 {
          assert zs[f] == zs[1..][f - 1] && xs[f] == xs[1..][f - 1];
        }
      }
    }
  }

  /** Among names of one text the human order is the order of their numbers. */
  lemma {:induction false} KeyOrdersNumbers(texts: seq<string>, zs: Tuple, xs: Tuple)
    requires |texts| == |zs| + 1 == |xs| + 1 && IsTuple(zs) && IsTuple(xs)
    ensures KeyAtMost(Key(texts, zs), Key(texts, xs)) <==> Below(zs, xs) || SameNumbers(zs, xs)
  {
    hide Value, Lower;
    NotLessThanItself(Lower(texts[0]));
    if zs != [] {
      var a, b := Key(texts, zs), Key(texts, xs);
      KeyOrdersNumbers(texts[1..], zs[1..], xs[1..]);
      assert a[1..] == [[Value(zs[0])]] + Key(texts[1..], zs[1..]);
      assert b[1..] == [[Value(xs[0])]] + Key(texts[1..], xs[1..]);
      assert a[1..][1..] == Key(texts[1..], zs[1..]) && b[1..][1..] == Key(texts[1..], xs[1..]);
      assert PieceLess([Value(zs[0])], [Value(xs[0])]) <==> Value(zs[0]) < Value(xs[0]);
      BelowByFirst(zs, xs);
      SameByFirst(zs, xs);
    }
  }

  // ----- chunks of one text -----

  predicate Alike(a: string, b: string) { Split(a).texts == Split(b).texts }

  /** The list cut wherever the text changes, and nowhere else. */
  ghost predicate Chunked(chunks: seq<seq<string>>, elems: seq<string>) {
    && Concat(chunks) == elems
    && (forall k :: 0 <= k < |chunks| ==> chunks[k] != [])
    && (forall k, i :: 0 <= k < |chunks| && 0 <= i < |chunks[k]| ==> Alike(chunks[k][0], chunks[k][i]))
    && (forall k :: 0 < k < |chunks| ==> !Alike(chunks[k - 1][0], chunks[k][0]))
  }

  lemma FirstChunk(elem: string)
    ensures Chunked([[elem]], [elem])
  {
    assert [[elem]][..0] == [];
    assert Concat<string>([]) == [];
  }

  lemma ChunkGrows(chunks: seq<seq<string>>, elems: seq<string>, elem: string)
    requires Chunked(chunks, elems) && chunks != [] && Alike(chunks[|chunks| - 1][0], elem)
    ensures Chunked(chunks[|chunks| - 1 := chunks[|chunks| - 1] + [elem]], elems + [elem])
  {
    hide Alike;
    var last := |chunks| - 1;
    var more := chunks[last := chunks[last] + [elem]];
    assert more[..last] == chunks[..last];
  }

  lemma AlikeItself(s: string)
    ensures Alike(s, s)
  {
  }

  lemma ChunkStarts(chunks: seq<seq<string>>, elems: seq<string>, elem: string)
    requires Chunked(chunks, elems) && chunks != [] && !Alike(chunks[|chunks| - 1][0], elem)
    ensures Chunked(chunks + [[elem]], elems + [elem])
  {
    hide Alike;
    assert Alike(elem, elem) by { AlikeItself(elem); }
    assert (chunks + [[elem]])[..|chunks|] == chunks;
  }

  /** group_elements. An empty list still gives one chunk, which is empty. */
  method GroupElements(elems: seq<string>) returns (chunks: seq<seq<string>>)
    ensures if elems == [] then chunks == [[]] else Chunked(chunks, elems)
  {
    hide Split, Chunked, Concat;
    var prev: Option<seq<string>> := None;
    chunks := [[]];
    for i := 0 to |elems|
      invariant i == 0 ==> chunks == [[]] && prev == None
      invariant i > 0 ==> Chunked(chunks, elems[..i]) && chunks != [] && chunks[|chunks| - 1] != []
      invariant i > 0 ==> prev == Some(Split(chunks[|chunks| - 1][0]).texts)
    {
      var elem := elems[i];
      var elemtxt := Split(elem).texts;
      var last := |chunks| - 1;
      assert elems[..i + 1] == elems[..i] + [elem];
      if prev == None {
        FirstChunk(elem);
        assert elems[..1] == [elem] && chunks[last := chunks[last] + [elem]] == [[elem]];
        prev := Some(elemtxt);
        chunks := chunks[last := chunks[last] + [elem]];
      } else if prev == Some(elemtxt) {
        ChunkGrows(chunks, elems[..i], elem);
        chunks := chunks[last := chunks[last] + [elem]];
      } else {
        ChunkStarts(chunks, elems[..i], elem);
        chunks := chunks + [[elem]];
        prev := Some(elemtxt);
      }
    }
    assert elems[..|elems|] == elems;
  }

  lemma {:induction false} ChunkIsSlice(chunks: seq<seq<string>>, k: nat) returns (a: nat)
    requires k < |chunks|
    ensures a + |chunks[k]| <= |Concat(chunks)| && Concat(chunks)[a..a + |chunks[k]|] == chunks[k]
  {
    var last := |chunks| - 1;
    if k == last {
      a := |Concat(chunks[..last])|;
    } else {
      a := ChunkIsSlice(chunks[..last], k);
      var front := Concat(chunks[..last]);
      assert (front + chunks[last])[a..a + |chunks[k]|] == front[a..a + |chunks[k]|];
    }
  }

  // ----- abbreviating a sorted list -----

  /** The bracketer loses none of these names. */
  ghost predicate Lossless(names: seq<string>)
    requires OneText(names)
  {
    NumbersAreTuples(names);
    KeepsAll(Numbers(names), |Split(names[0]).nums|)
  }

  ghost predicate Ascends(names: seq<string>)
    requires OneText(names)
  {
    NumbersAreTuples(names);
    Ascending(Numbers(names), |Split(names[0]).nums|)
  }

  /** Ordinary names, and nothing lost in any chunk. */
  ghost predicate Ready(elems: seq<string>) {
    && (forall i :: 0 <= i < |elems| ==> Ordinary(elems[i]))
    && forall chunks, k :: Chunked(chunks, elems) && 0 <= k < |chunks| && OneText(chunks[k]) ==> Lossless(chunks[k])
  }

  lemma SliceAscends(elems: seq<string>, names: set<string>, a: nat, b: nat)
    requires Sorts(elems, names) && a < b <= |elems| && OneText(elems[a..b])
    ensures Ascends(elems[a..b])
  {
    hide Split, Key, KeyAtMost, Below, SameNumbers;
    var slice := elems[a..b];
    var ns, count := Numbers(slice), |Split(elems[a]).nums|;
    NumbersAreTuples(slice);
    forall i | 0 < i < |ns|
      ensures Below(ns[i - 1], ns[i]) || SameNumbers(ns[i - 1], ns[i])
    {
      var x, y := elems[a + i - 1], elems[a + i];
      assert slice[i - 1] == x && slice[i] == y;
      KeyOrdersNumbers(Split(x).texts, ns[i - 1], ns[i]);
    }
    forall i, j | 0 <= i < j < |ns|
      ensures ns[i] != ns[j]
    {
      JoinUndoesSplit(slice[i]);
      JoinUndoesSplit(slice[j]);
      assert slice[i] == elems[a + i] && slice[j] == elems[a + j];
    }
  }

  /** A chunk of a sorted list meets all that the bracketer needs. */
  lemma ChunkWithin(elems: seq<string>, chunks: seq<seq<string>>, k: nat) returns (a: nat)
    requires Chunked(chunks, elems) && k < |chunks|
    ensures a + |chunks[k]| <= |elems| && elems[a..a + |chunks[k]|] == chunks[k] != []
    ensures forall x :: x in chunks[k] ==> x in elems
  {
    a := ChunkIsSlice(chunks, k);
    hide Concat, Alike;
    forall i | 0 <= i < |chunks[k]|
      ensures chunks[k][i] in elems
    {
      assert chunks[k][i] == elems[a + i];
    }
  }

  lemma ChunkHasOneText(elems: seq<string>, chunks: seq<seq<string>>, k: nat)
    requires Chunked(chunks, elems) && k < |chunks| && forall i :: 0 <= i < |elems| ==> Ordinary(elems[i])
    ensures OneText(chunks[k])
  {
    hide Split, Ordinary, Concat;
    var a := ChunkWithin(elems, chunks, k);
    var chunk := chunks[k];
    forall i | 0 <= i < |chunk|
      ensures Split(chunk[i]).texts == Split(chunk[0]).texts && Ordinary(chunk[i])
    {
      assert chunk[i] == elems[a + i] && Alike(chunk[0], chunk[i]);
    }
  }

  lemma ReadyIsLossless(elems: seq<string>, chunks: seq<seq<string>>, k: nat)
    requires Ready(elems) && Chunked(chunks, elems) && k < |chunks|
    ensures OneText(chunks[k]) && Lossless(chunks[k])
  {
    hide Ordinary, Chunked, OneText, Lossless;
    ChunkHasOneText(elems, chunks, k);
  }

  lemma AscendingIsAbbreviable(names: seq<string>)
    requires OneText(names) && Ascends(names) && Lossless(names)
    ensures Abbreviable(names)
  {
    hide OneText, Split, Ascending, KeepsAll, Numbers;
  }

  lemma ChunkIsAbbreviable(elems: seq<string>, names: set<string>, chunks: seq<seq<string>>, k: nat)
    requires Sorts(elems, names) && Ready(elems) && Chunked(chunks, elems) && k < |chunks|
    ensures OneText(chunks[k]) && Abbreviable(chunks[k])
  {
    hide *;
    ReadyIsLossless(elems, chunks, k);
    var a := ChunkWithin(elems, chunks, k);
    SliceAscends(elems, names, a, a + |chunks[k]|);
    AscendingIsAbbreviable(chunks[k]);
  }

  lemma StandsAppend(tokens: seq<Token>, names: seq<string>, more: seq<Token>, rest: seq<string>)
    requires Stands(tokens, names) && Stands(more, rest)
    ensures Stands(tokens + more, names + rest)
  {
    hide Denotes;
    var all := tokens + more;
    forall s
      ensures (exists j :: 0 <= j < |all| && Denotes(all[j], s)) <==> s in names + rest
    {
      if j :| 0 <= j < |tokens| && Denotes(tokens[j], s) {
        assert Denotes(all[j], s);
      }
      if j :| 0 <= j < |more| && Denotes(more[j], s) {
        assert Denotes(all[|tokens| + j], s);
      }
    }
  }

  lemma NoTokens()
    ensures Stands([], [])
  {
  }

  lemma ChunksConcat(chunks: seq<seq<string>>, elems: seq<string>)
    requires Chunked(chunks, elems)
    ensures Concat(chunks) == elems
  {
  }

  /** Chunk the list and run a bracketer over each chunk, lines 237-246 and 250-259. */
  method AbbreviateChunks(elems: seq<string>, ghost names: set<string>) returns (ranges: seq<Token>)
    requires Sorts(elems, names) && Ready(elems)
    ensures Stands(ranges, elems) && forall j :: 0 <= j < |ranges| ==> Tidy(ranges[j])
  {
    hide Tidy, Chunked, Sorts, Ready, OneText, Abbreviable, Stands;
    var chunks := GroupElements(elems);
    ranges := [];
    assert Stands([], []) by { NoTokens(); }
    if elems == [] {
      return;
    }
    for k := 0 to |chunks|
      invariant Stands(ranges, Concat(chunks[..k])) && forall j :: 0 <= j < |ranges| ==> Tidy(ranges[j])
    {
      assert chunks[..k + 1][..k] == chunks[..k];
      ChunkIsAbbreviable(elems, names, chunks, k);
      var more := Abbreviate(chunks[k]);
      StandsAppend(ranges, Concat(chunks[..k]), more, chunks[k]);
      ranges := ranges + more;
    }
    assert chunks[..|chunks|] == chunks;
    ChunksConcat(chunks, elems);
  }

  /** Sets of names that keep everything: alike names have one number at most, or pairwise
      each field as wide or unpadded in both. */
  ghost predicate EvenPair(x: string, y: string)
    requires Alike(x, y)
  {
    forall f :: 0 <= f < |Split(x).nums| ==>
      |Split(x).nums[f]| == |Split(y).nums[f]| || (!NeedsPad(Split(x).nums[f]) && !NeedsPad(Split(y).nums[f]))
  }

  lemma EvenChunk(chunk: seq<string>)
    requires OneText(chunk) && Ascends(chunk)
    requires forall i, j :: 0 <= i < |chunk| && 0 <= j < |chunk| && Alike(chunk[i], chunk[j]) ==>
      |Split(chunk[i]).nums| <= 1 || EvenPair(chunk[i], chunk[j])
    ensures Lossless(chunk)
  {
    hide Split, KeepsAll, Ascending, NeedsPad;
    NumbersAreTuples(chunk);
    var ns, count := Numbers(chunk), |Split(chunk[0]).nums|;
    if count <= 1 {
      OneNumberKeepsAll(ns, count);
    } else {
      forall f | 0 <= f < count
        ensures EvenField(ns, count, f)
      {
        if i :| 0 <= i < |ns| && NeedsPad(ns[i][f]) {
          forall j | 0 <= j < |ns|
            ensures |ns[j][f]| == |ns[i][f]|
          {
            assert Alike(chunk[i], chunk[j]);
          }
        }
      }
      EvenPaddingKeepsAll(ns, count);
    }
  }

  lemma SortedWithin(elems: seq<string>, names: set<string>)
    requires Sorts(elems, names)
    ensures forall s :: s in elems ==> s in names
  {
  }

  lemma EvenChunkOf(elems: seq<string>, names: set<string>, chunks: seq<seq<string>>, k: nat)
    requires Sorts(elems, names) && Chunked(chunks, elems) && k < |chunks| && OneText(chunks[k])
    requires forall x, y :: x in names && y in names && Alike(x, y) ==> |Split(x).nums| <= 1 || EvenPair(x, y)
    ensures Lossless(chunks[k])
  {
    hide *;
    SortedWithin(elems, names);
    var chunk := chunks[k];
    var a := ChunkWithin(elems, chunks, k);
    SliceAscends(elems, names, a, a + |chunk|);
    forall i, j | 0 <= i < |chunk| && 0 <= j < |chunk| && Alike(chunk[i], chunk[j])
      ensures |Split(chunk[i]).nums| <= 1 || EvenPair(chunk[i], chunk[j])
    {
      assert chunk[i] in names && chunk[j] in names;
    }
    EvenChunk(chunk);
  }

  lemma EvenIsReady(elems: seq<string>, names: set<string>)
    requires Sorts(elems, names) && forall x :: x in names ==> Ordinary(x)
    requires forall x, y :: x in names && y in names && Alike(x, y) ==> |Split(x).nums| <= 1 || EvenPair(x, y)
    ensures Ready(elems)
  {
    hide Split, Alike, EvenPair, Ordinary, KeyAtMost;
    forall i | 0 <= i < |elems|
      ensures Ordinary(elems[i])
    {
      assert elems[i] in names;
    }
    hide Sorts;
    forall chunks, k | Chunked(chunks, elems) && 0 <= k < |chunks| && OneText(chunks[k])
      ensures Lossless(chunks[k])
    {
      EvenChunkOf(elems, names, chunks, k);
    }
  }

  // ----- groups that the set contains -----

  datatype Covering = Covering(chosen: seq<string>, left: set<string>)

  /** The loop of lines 213-229: a group goes in when all its nodes are still to be written. */
  function Cover(nodes: set<string>, order: seq<string>, groups: map<string, set<string>>): Covering
    requires forall i :: 0 <= i < |order| ==> order[i] in groups
  {
    if order == [] then Covering([], nodes)
    else
      var c := Cover(nodes, order[..|order| - 1], groups);
      var g := order[|order| - 1];
      if groups[g] != {} && groups[g] <= c.left then Covering(c.chosen + [g], c.left - groups[g]) else c
  }

  /** The chosen groups are disjoint parts of the set, and with the rest they make it up. */
  ghost predicate Partition(nodes: set<string>, groups: map<string, set<string>>, c: Covering)
    requires forall i :: 0 <= i < |c.chosen| ==> c.chosen[i] in groups
  {
    && c.left <= nodes
    && (forall i :: 0 <= i < |c.chosen| ==> groups[c.chosen[i]] <= nodes - c.left)
    && (forall i, j :: 0 <= i < j < |c.chosen| ==>
          c.chosen[i] != c.chosen[j] && groups[c.chosen[i]] !! groups[c.chosen[j]])
    && forall x :: x in nodes ==> x in c.left || exists i :: 0 <= i < |c.chosen| && x in groups[c.chosen[i]]
  }

  lemma OneMore(nodes: set<string>, groups: map<string, set<string>>, was: Covering, g: string)
    requires forall i :: 0 <= i < |was.chosen| ==> was.chosen[i] in groups
    requires Partition(nodes, groups, was) && g in groups && groups[g] != {} && groups[g] <= was.left
    ensures Partition(nodes, groups, Covering(was.chosen + [g], was.left - groups[g]))
  {
    var c := Covering(was.chosen + [g], was.left - groups[g]);
    var x0 :| x0 in groups[g];
    forall x | x in nodes
      ensures x in c.left || exists i :: 0 <= i < |c.chosen| && x in groups[c.chosen[i]]
    {
      if x in groups[g] {
        assert c.chosen[|was.chosen|] == g;
      } else if i :| 0 <= i < |was.chosen| && x in groups[was.chosen[i]] {
        assert c.chosen[i] == was.chosen[i];
      }
    }
    forall i | 0 <= i < |was.chosen|
      ensures was.chosen[i] != g && groups[was.chosen[i]] !! groups[g]
    {
      assert x0 !in groups[was.chosen[i]];
    }
  }

  /** The loop's covering partitions the set, and no further group fits. */
  lemma {:induction false} CoverPartitions(nodes: set<string>, order: seq<string>, groups: map<string, set<string>>)
    requires forall i :: 0 <= i < |order| ==> order[i] in groups
    ensures var c := Cover(nodes, order, groups);
      && (forall i :: 0 <= i < |c.chosen| ==> c.chosen[i] in order)
      && Partition(nodes, groups, c)
      && (forall i :: 0 <= i < |order| ==> groups[order[i]] == {} || !(groups[order[i]] <= c.left))
  {
    if order == [] {
      assert Partition(nodes, groups, Covering([], nodes));
    } else {
      hide Partition;
      var front, g := order[..|order| - 1], order[|order| - 1];
      CoverPartitions(nodes, front, groups);
      var was := Cover(nodes, front, groups);
      assert order == front + [g];
      if groups[g] != {} && groups[g] <= was.left {
        OneMore(nodes, groups, was, g);
      }
    }
  }

  /** Once nothing is left no group goes in. */
  lemma {:induction false} NothingLeft(nodes: set<string>, order: seq<string>, more: nat,
                                       groups: map<string, set<string>>)
    requires more <= |order| && forall i :: 0 <= i < |order| ==> order[i] in groups
    requires Cover(nodes, order[..more], groups).left == {}
    ensures Cover(nodes, order, groups) == Cover(nodes, order[..more], groups)
    decreases |order|
  {
    if more < |order| {
      assert order[..|order| - 1][..more] == order[..more];
      NothingLeft(nodes, order[..|order| - 1], more, groups);
    } else {
      assert order[..more] == order;
    }
  }

  lemma CoverStep(nodes: set<string>, order: seq<string>, i: nat, groups: map<string, set<string>>)
    requires i < |order| && forall k :: 0 <= k < |order| ==> order[k] in groups
    ensures var c, nl := Cover(nodes, order[..i], groups), groups[order[i]];
      Cover(nodes, order[..i + 1], groups)
      == if nl != {} && nl - c.left == {} then Covering(c.chosen + [order[i]], c.left - nl) else c
  {
    assert order[..i + 1][..i] == order[..i];
    var c, nl := Cover(nodes, order[..i], groups), groups[order[i]];
    assert nl <= c.left <==> nl - c.left == {} by {
      if nl - c.left == {} {
        assert forall x :: x in nl ==> x !in nl - c.left;
      }
    }
  }

  /** What is written: the chosen groups and the nodes left over. */
  ghost predicate Writes(tokens: seq<Token>, c: Covering) {
    forall s :: (exists j :: 0 <= j < |tokens| && Denotes(tokens[j], s)) <==> s in c.chosen || s in c.left
  }

  lemma BiggerDoesNotFit(a: set<string>, b: set<string>)
    ensures |a| > |b| ==> a - b != {}
  {
    if a - b == {} {
      assert a <= b by {
        assert forall x :: x in a ==> x !in a - b;
      }
      assert b == a + (b - a);
    }
  }

  lemma WritesBoth(tokens: seq<Token>, c: Covering, groups: seq<string>, names: seq<string>)
    requires Stands(tokens, groups + names)
    requires forall s :: s in groups <==> s in c.chosen
    requires forall s :: s in names <==> s in c.left
    ensures Writes(tokens, c)
  {
    hide Denotes;
    forall s
      ensures (exists j :: 0 <= j < |tokens| && Denotes(tokens[j], s)) <==> s in c.chosen || s in c.left
    {
      assert s in groups + names <==> s in groups || s in names;
    }
  }

  class ReverseNodeRange {
    var nodes: set<string>

    constructor (nodes: seq<string>)
      ensures this.nodes == set n | n in nodes
    {
      this.nodes := set n | n in nodes;
    }

    /** Takes the groups out of the set, in the config manager's order. */
    method SubsetGroups(allgroups: seq<string>, groups: map<string, set<string>>) returns (subsetgroups: seq<string>)
      requires forall i :: 0 <= i < |allgroups| ==> allgroups[i] in groups
      modifies this`nodes
      ensures Covering(subsetgroups, nodes) == Cover(old(nodes), allgroups, groups)
    {
      subsetgroups := [];
      assert allgroups[..0] == [];
      for i := 0 to |allgroups|
        invariant Covering(subsetgroups, nodes) == Cover(old(nodes), allgroups[..i], groups)
      {
        var nl := groups[allgroups[i]];
        CoverStep(old(nodes), allgroups, i, groups);
        BiggerDoesNotFit(nl, nodes);
        if |nl| > |nodes| || nl == {} {
          continue;
        }
        if nl - nodes == {} {
          subsetgroups := subsetgroups + [allgroups[i]];
          nodes := nodes - nl;
          if nodes == {} {
            NothingLeft(old(nodes), allgroups, i + 1, groups);
            return;
          }
        }
      }
      assert allgroups[..|allgroups|] == allgroups;
    }

    /** The property noderange, with sorting by humanify_nodename given by human. */
    method Noderange(allgroups: seq<string>, groups: map<string, set<string>>, human: set<string> -> seq<string>)
      returns (ranges: seq<Token>)
      requires forall i :: 0 <= i < |allgroups| ==> allgroups[i] in groups
      requires forall names :: Sorts(human(names), names)
      requires var c := Cover(nodes, allgroups, groups); Ready(human(set g | g in c.chosen)) && Ready(human(c.left))
      modifies this`nodes
      ensures Writes(ranges, Cover(old(nodes), allgroups, groups)) && forall j :: 0 <= j < |ranges| ==> Tidy(ranges[j])
      ensures nodes == Cover(old(nodes), allgroups, groups).left
    {
      hide Tidy, Ready, Stands, Cover, KeyAtMost;
      var subsetgroups := SubsetGroups(allgroups, groups);
      ghost var c := Cover(old(nodes), allgroups, groups);
      var chosen := set g | g in subsetgroups;
      var sortedgroups := human(chosen);
      ranges := AbbreviateChunks(sortedgroups, chosen);
      var rest := AbbreviateChunks(human(nodes), nodes);
      StandsAppend(ranges, sortedgroups, rest, human(nodes));
      ranges := ranges + rest;
      WritesBoth(ranges, c, sortedgroups, human(nodes));
    }
  }

  lemma ExpandsTo(cfg: Config, ranges: seq<Token>, c: Covering, wanted: set<string>, y: string)
    requires cfg.Known? && Writes(ranges, c) && forall j :: 0 <= j < |ranges| ==> AllEntities(cfg, ranges[j])
    requires c.left <= wanted && c.left <= cfg.nodes
    requires forall i :: 0 <= i < |c.chosen| ==>
               c.chosen[i] !in cfg.nodes && c.chosen[i] in cfg.groups && cfg.groups[c.chosen[i]] <= wanted
    requires forall x :: x in wanted ==> x in c.left || exists i :: 0 <= i < |c.chosen| && x in cfg.groups[c.chosen[i]]
    ensures (exists j :: 0 <= j < |ranges| && Yields(cfg, ranges[j], y)) <==> y in wanted
  {
    hide Denotes;
    if j :| 0 <= j < |ranges| && Yields(cfg, ranges[j], y) {
      var s :| Denotes(ranges[j], s) && y in Resolve(cfg, s);
      assert s in c.chosen || s in c.left;
    }
    if y in wanted {
      if y in c.left {
        var j :| 0 <= j < |ranges| && Denotes(ranges[j], y);
        assert Entity(cfg, y) && y in Resolve(cfg, y);
        assert Yields(cfg, ranges[j], y);
      } else {
        var i :| 0 <= i < |c.chosen| && y in cfg.groups[c.chosen[i]];
        var g := c.chosen[i];
        var j :| 0 <= j < |ranges| && Denotes(ranges[j], g);
        assert Entity(cfg, g) && y in Resolve(cfg, g);
        assert Yields(cfg, ranges[j], y);
      }
    }
  }

  /** Written and expanded again, the set is the same; the parser refuses the empty text. */
  method WriteAndExpand(nodes: seq<string>, known: set<string>, allgroups: seq<string>,
                        groups: map<string, set<string>>, human: set<string> -> seq<string>)
    returns (resnodes: Option<set<string>>)
    requires forall i :: 0 <= i < |allgroups| ==> allgroups[i] in groups && allgroups[i] !in known
    requires forall n :: n in nodes ==> n in known && Entity(Known(known, groups), n)
    requires forall i :: 0 <= i < |allgroups| ==> Entity(Known(known, groups), allgroups[i])
    requires forall names :: Sorts(human(names), names)
    requires var c := Cover((set n | n in nodes), allgroups, groups);
             Ready(human(set g | g in c.chosen)) && Ready(human(c.left))
    ensures if resnodes.Some? then resnodes.value == set n | n in nodes else nodes == []
  {
    hide Sorts, Ready, Cover, Denotes, Grounded, Means, Yields;
    var cfg := Known(known, groups);
    ghost var wanted := set n | n in nodes;
    ghost var c := Cover(wanted, allgroups, groups);
    CoverPartitions(wanted, allgroups, groups);
    var writer := new ReverseNodeRange(nodes);
    var ranges := writer.Noderange(allgroups, groups, human);
    forall j | 0 <= j < |ranges|
      ensures AllEntities(cfg, ranges[j])
    {
      forall s | Denotes(ranges[j], s)
        ensures Entity(cfg, s)
      {
        assert s in c.chosen || s in c.left;
      }
    }
    forall y
      ensures (exists j :: 0 <= j < |ranges| && Yields(cfg, ranges[j], y)) <==> y in wanted
    {
      ExpandsTo(cfg, ranges, c, wanted, y);
    }
    assert nodes != [] ==> nodes[0] in wanted;
    if ranges == [] {
      return None;
    }
    ListedIsGrounded(cfg, ranges);
    var result := Evaluate(cfg, Listed(ranges));
    forall y
      ensures y in result <==> y in wanted
    {
      ListedMeans(cfg, ranges, y);
    }
    resnodes := Some(result);
  }
}
