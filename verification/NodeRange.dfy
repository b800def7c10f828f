/** The expander and the abbreviator of noderange.py around the bracketer: tokens are
    expanded against a set of nodes and static groups, and a set of nodes is written as
    groups and bracketed rest. */
module NodeRange {
  import opened NumberText
  import opened BracketModel
  import opened BracketRoundTrip
  import opened BracketCompact
  import opened NodeNames
  import opened Bracketer

  /** What the config manager knows, or None when there is none. */
  datatype Config = NoConfig | Known(nodes: set<string>, groups: map<string, set<string>>)

  /** The element is a node, a group, or (without a config) free of range, paging and
      filter operators. */
  predicate Entity(cfg: Config, s: string) {
    && '=' !in s && '~' !in s && (s != "" ==> s[0] != '/')
    && match cfg
       case NoConfig =>
         && (forall c :: c in s ==> c !in {':', '-', '+', '<', '>'})
         && forall i :: 0 < i < |s| ==> s[i - 1] != '.' || s[i] != '.'
       case Known(nodes, groups) => s in nodes || s in groups
  }

  /** What lines 428-438 and 470-471 give for an entity. */
  function Resolve(cfg: Config, s: string): set<string>
    requires Entity(cfg, s)
  {
    match cfg
    case NoConfig => {s}
    case Known(nodes, groups) => if s in nodes then {s} else groups[s]
  }

  ghost predicate AllEntities(cfg: Config, token: Token) {
    forall s :: Denotes(token, s) ==> Entity(cfg, s)
  }

  ghost predicate Yields(cfg: Config, token: Token, y: string)
    requires AllEntities(cfg, token)
  {
    exists s :: Denotes(token, s) && y in Resolve(cfg, s)
  }

  // ----- expansion -----

  /** expandrange on an entry of a bracket. */
  method ExpandEntry(item: string) returns (results: set<string>)
    ensures results == ExpandItem(item)
  {
    hide Value, Pad;
    var p := Colon(item);
    if p == |item| {
      return {item};
    }
    var left, right := item[..p], item[p + 1..];
    if left == right {
      return {left};
    }
    if !AllDigits(left) || !AllDigits(right) || Value(left) >= Value(right) {
      return {item};
    }
    var num := Value(left);
    results := {};
    while num < Value(right) + 1
      invariant Value(left) <= num <= Value(right) + 1
      invariant results == set k | Value(left) <= k < num :: Pad(k, |left|)
    {
      results := results + {Pad(num, |left|)};
      num := num + 1;
    }
    assert num == Value(right) + 1;
  }

  /** The nodes of a bracket, each entry expanded on its own. */
  method Numerics(entries: seq<string>) returns (nodes: set<string>)
    ensures forall x :: x in nodes <==> Lists(entries, x)
  {
    hide ExpandItem;
    nodes := {};
    for i := 0 to |entries|
      invariant forall x :: x in nodes <==> Lists(entries[..i], x)
    {
      var more := ExpandEntry(entries[i]);
      assert entries[..i + 1] == entries[..i] + [entries[i]];
      forall x
        ensures x in nodes + more <==> Lists(entries[..i + 1], x)
      {
        ListsAppend(entries[..i], entries[i], x);
      }
      nodes := nodes + more;
    }
    assert entries[..|entries|] == entries;
  }

  function Brackets(token: Token): nat {
    if token == [] then 0 else Brackets(token[1..]) + if token[0].Bracket? then 1 else 0
  }

  lemma {:induction false} BracketsAppend(a: Token, b: Token)
    ensures Brackets(a + b) == Brackets(a) + Brackets(b)
  {
    if a == [] {
      assert a + b == b;
    } else {
      assert (a + b)[1..] == a[1..] + b;
      BracketsAppend(a[1..], b);
    }
  }

  /** Where the last piece of a token begins. */
  lemma EndOf(token: Token, e: Elem, s: string) returns (h: nat)
    requires Denotes(token + [e], s)
    ensures h <= |s| && Denotes(token, s[..h])
    ensures if e.Word? then s[h..] == e.text else Lists(e.entries, s[h..])
  {
    hide Lists;
    DenotesLast(token, e, s);
    hide Denotes;
    if e.Word? {
      h := |s| - |e.text|;
    } else {
      h :| h <= |s| && Denotes(token, s[..h]) && Lists(e.entries, s[h..]);
    }
  }

  lemma EndBack(token: Token, e: Elem, s: string, h: nat)
    requires h <= |s| && Denotes(token, s[..h])
    requires if e.Word? then s[h..] == e.text else Lists(e.entries, s[h..])
    ensures Denotes(token + [e], s)
  {
    hide Lists;
    DenotesLast(token, e, s);
    hide Denotes;
  }

  /** A token is read piece by piece. */
  lemma {:induction false} DenotesAppend(a: Token, b: Token, s: string)
    ensures Denotes(a + b, s) <==> exists m :: 0 <= m <= |s| && Denotes(a, s[..m]) && Denotes(b, s[m..])
    decreases |b|
  {
    hide Denotes, Lists;
    if b == [] {
      assert a + b == a && s[..|s|] == s;
      forall m | 0 <= m <= |s|
        ensures Denotes([], s[m..]) <==> m == |s|
      {
        NothingDenotes(s[m..]);
      }
    } else {
      var front, e := b[..|b| - 1], b[|b| - 1];
      assert a + b == a + front + [e] && front + [e] == b;
      DenotesLast(a + front, e, s);
      if Denotes(a + b, s) {
        var h := EndOf(a + front, e, s);
        DenotesAppend(a, front, s[..h]);
        var m :| 0 <= m <= h && Denotes(a, s[..h][..m]) && Denotes(front, s[..h][m..]);
        assert s[..h][..m] == s[..m] && s[..h][m..] == s[m..][..h - m] && s[m..][h - m..] == s[h..];
        EndBack(front, e, s[m..], h - m);
      }
      if m :| 0 <= m <= |s| && Denotes(a, s[..m]) && Denotes(b, s[m..]) {
        var h := EndOf(front, e, s[m..]);
        h := h + m;
        DenotesAppend(a, front, s[..h]);
        assert s[..h][..m] == s[..m] && s[..h][m..] == s[m..][..h - m] && s[m..][h - m..] == s[h..];
        EndBack(a + front, e, s, h);
      }
    }
  }

  lemma OneWord(w: string, s: string)
    ensures Denotes([Word(w)], s) <==> s == w
  {
    assert [] + [Word(w)] == [Word(w)];
    DenotesLast([], Word(w), s);
    if EndsIn(s, w) {
      NothingDenotes(s[..|s| - |w|]);
      assert s == s[..|s| - |w|] + w;
    }
    NothingDenotes(w[..0]);
  }

  lemma OneBracket(entries: seq<string>, s: string)
    ensures Denotes([Bracket(entries)], s) <==> Lists(entries, s)
  {
    hide Lists;
    assert [] + [Bracket(entries)] == [Bracket(entries)];
    DenotesLast([], Bracket(entries), s);
    assert s[0..] == s && s[..0] == "";
    forall m | 0 <= m <= |s|
      ensures Denotes([], s[..m]) <==> m == 0
    {
      NothingDenotes(s[..m]);
    }
  }

  /** Replacing the first bracket by one of its numbers, joined to the text before it,
      splits the token's strings among the numbers. */
  lemma FirstBracketSplits(words: Token, prefix: string, entries: seq<string>, rest: Token, s: string)
    requires forall p :: Denotes(words, p) <==> p == prefix
    ensures Denotes(words + [Bracket(entries)] + rest, s)
       <==> exists x :: Lists(entries, x) && Denotes([Word(prefix + x)] + rest, s)
  {
    hide Denotes, Lists;
    var head := words + [Bracket(entries)];
    DenotesAppend(head, rest, s);
    if Denotes(head + rest, s) {
      var m :| 0 <= m <= |s| && Denotes(head, s[..m]) && Denotes(rest, s[m..]);
      DenotesAppend(words, [Bracket(entries)], s[..m]);
      var h :| 0 <= h <= m && Denotes(words, s[..m][..h]) && Denotes([Bracket(entries)], s[..m][h..]);
      var x := s[..m][h..];
      OneBracket(entries, x);
      assert s[..m] == prefix + x;
      OneWord(prefix + x, s[..m]);
      DenotesAppend([Word(prefix + x)], rest, s);
    }
    if x :| Lists(entries, x) && Denotes([Word(prefix + x)] + rest, s) {
      DenotesAppend([Word(prefix + x)], rest, s);
      var m :| 0 <= m <= |s| && Denotes([Word(prefix + x)], s[..m]) && Denotes(rest, s[m..]);
      OneWord(prefix + x, s[..m]);
      OneBracket(entries, x);
      assert s[..m][..|prefix|] == prefix && s[..m][|prefix|..] == x;
      DenotesAppend(words, [Bracket(entries)], s[..m]);
    }
  }

  lemma CountBrackets(words: Token, w: string, entries: seq<string>, rest: Token)
    ensures Brackets([Word(w)] + rest) < Brackets(words + [Bracket(entries)] + rest)
  {
    BracketsAppend([Word(w)], rest);
    BracketsAppend(words + [Bracket(entries)], rest);
    BracketsAppend(words, [Bracket(entries)]);
  }

  /** The loop of lines 421-424. */
  method ExpandBracket(cfg: Config, ghost element: Token, ghost words: Token, prefix: string,
                       entries: seq<string>, rest: Token)
    returns (nodes: set<string>)
    requires AllEntities(cfg, element) && element == words + [Bracket(entries)] + rest
    requires forall p :: Denotes(words, p) <==> p == prefix
    ensures forall y :: y in nodes <==> Yields(cfg, element, y)
    decreases Brackets(element), 0
  {
    hide Denotes, Lists, Entity, Resolve, ExpandItem, Brackets;
    var remaining := Numerics(entries);
    ghost var done: set<string> := {};
    nodes := {};
    forall s
      ensures Denotes(element, s) <==> exists x :: Lists(entries, x) && Denotes([Word(prefix + x)] + rest, s)
    {
      FirstBracketSplits(words, prefix, entries, rest, s);
    }
    while remaining != {}
      invariant forall x :: Lists(entries, x) <==> x in done || x in remaining
      invariant forall y :: y in nodes <==>
        exists x, s :: x in done && Denotes([Word(prefix + x)] + rest, s) && Entity(cfg, s) && y in Resolve(cfg, s)
      decreases remaining
    {
      var x :| x in remaining;
      CountBrackets(words, prefix + x, entries, rest);
      var more := ExpandString(cfg, [Word(prefix + x)] + rest);
      nodes := nodes + more;
      done, remaining := done + {x}, remaining - {x};
    }
  }

  /** _expandstring: the first bracket is replaced by each of its numbers in turn, and what
      is left without brackets is looked up. */
  method ExpandString(cfg: Config, element: Token) returns (nodes: set<string>)
    requires AllEntities(cfg, element)
    ensures forall y :: y in nodes <==> Yields(cfg, element, y)
    decreases Brackets(element)
  {
    hide Denotes, Lists, Entity, Resolve, ExpandItem;
    var prefix := "";
    assert element[..0] == [];
    forall p
      ensures Denotes([], p) <==> p == ""
    {
      NothingDenotes(p);
    }
    for idx := 0 to |element|
      invariant forall p :: Denotes(element[..idx], p) <==> p == prefix
    {
      assert element[..idx + 1] == element[..idx] + [element[idx]];
      if element[idx].Bracket? {
        assert element == element[..idx] + [element[idx]] + element[idx + 1..];
        nodes := ExpandBracket(cfg, element, element[..idx], prefix, element[idx].entries, element[idx + 1..]);
        return;
      }
      ghost var words := element[..idx + 1];
      forall p
        ensures Denotes(words, p) <==> p == prefix + element[idx].text
      {
        DenotesLast(element[..idx], element[idx], p);
        if EndsIn(p, element[idx].text) {
          assert p == p[..|p| - |element[idx].text|] + element[idx].text;
        }
      }
      prefix := prefix + element[idx].text;
    }
    assert element[..|element|] == element;
    nodes := Resolve(cfg, prefix);
  }

  // ----- expressions -----

  datatype Op = Union | Subtract | Intersect

  /** What the parser gives for a list: operands, which are lists too, and the signs ',',
      ',-' and '@'. A list that begins with no list is a token. */
  datatype Part = Sign(op: Op) | Operand(tree: Tree)
  datatype Tree = Text(token: Token) | Group(first: Tree, more: seq<Part>)

  /** The operator at part i: that of the last sign before it. */
  function OpAt(parts: seq<Part>, i: nat): Op
    requires i <= |parts|
  {
    if i == 0 then Union
    else if parts[i - 1].Sign? then parts[i - 1].op
    else OpAt(parts, i - 1)
  }

  ghost predicate Grounded(cfg: Config, tree: Tree) {
    match tree
    case Text(token) => AllEntities(cfg, token)
    case Group(first, more) =>
      Grounded(cfg, first) && forall i :: 0 <= i < |more| && more[i].Operand? ==> Grounded(cfg, more[i].tree)
  }

  /** No part from a on takes the node away: no operand after ',-' has it, and each after '@'
      does. */
  ghost predicate Stays(cfg: Config, tree: Tree, a: nat, k: nat, y: string)
    requires Grounded(cfg, tree) && tree.Group? && a <= k <= |tree.more|
    decreases tree, 0, 0
  {
    forall j :: a <= j < k && tree.more[j].Operand? ==>
      match OpAt(tree.more, j)
      case Union => true
      case Subtract => !Means(cfg, tree.more[j].tree, y)
      case Intersect => Means(cfg, tree.more[j].tree, y)
  }

  /** A node is in the first k parts when some operand adds the node and no later one takes
      it away. */
  ghost predicate MeansUpTo(cfg: Config, tree: Tree, k: nat, y: string)
    requires Grounded(cfg, tree) && tree.Group? && k <= |tree.more|
    decreases tree, 0
  {
    || (Means(cfg, tree.first, y) && Stays(cfg, tree, 0, k, y))
    || exists i :: 0 <= i < k && tree.more[i].Operand? && OpAt(tree.more, i) == Union
                   && Means(cfg, tree.more[i].tree, y) && Stays(cfg, tree, i + 1, k, y)
  }

  /** What an expression means, without running it. */
  ghost predicate Means(cfg: Config, tree: Tree, y: string)
    requires Grounded(cfg, tree)
    decreases tree, 1
  {
    match tree
    case Text(token) => Yields(cfg, token, y)
    case Group(first, more) => MeansUpTo(cfg, tree, |more|, y)
  }

  predicate Combined(op: Op, before: bool, more: bool) {
    match op
    case Union => before || more
    case Subtract => before && !more
    case Intersect => before && more
  }

  lemma NextPart(cfg: Config, tree: Tree, k: nat, y: string)
    requires Grounded(cfg, tree) && tree.Group? && k < |tree.more|
    ensures MeansUpTo(cfg, tree, k + 1, y) <==>
      if tree.more[k].Sign? then MeansUpTo(cfg, tree, k, y)
      else Combined(OpAt(tree.more, k), MeansUpTo(cfg, tree, k, y), Means(cfg, tree.more[k].tree, y))
  {
    hide Means, OpAt;
    assert forall a :: 0 <= a <= k && Stays(cfg, tree, a, k + 1, y) ==> Stays(cfg, tree, a, k, y);
  }

  lemma OnlyFirst(cfg: Config, tree: Tree, y: string)
    requires Grounded(cfg, tree) && tree.Group?
    ensures MeansUpTo(cfg, tree, 0, y) <==> Means(cfg, tree.first, y)
  {
    hide Means;
  }

  lemma AllParts(cfg: Config, tree: Tree, y: string)
    requires Grounded(cfg, tree) && tree.Group?
    ensures Means(cfg, tree, y) <==> MeansUpTo(cfg, tree, |tree.more|, y)
  {
    hide MeansUpTo;
  }

  /** _evaluate: the loop that carries the last sign along gives what the expression means. */
  method Evaluate(cfg: Config, tree: Tree) returns (nodes: set<string>)
    requires Grounded(cfg, tree)
    ensures forall y :: y in nodes <==> Means(cfg, tree, y)
    decreases tree
  {
    hide Yields, AllEntities;
    if tree.Text? {
      nodes := ExpandString(cfg, tree.token);
      return;
    }
    hide MeansUpTo, Means;
    var op := Union;
    nodes := Evaluate(cfg, tree.first);
    forall y
      ensures MeansUpTo(cfg, tree, 0, y) <==> Means(cfg, tree.first, y)
    {
      OnlyFirst(cfg, tree, y);
    }
    for i := 0 to |tree.more|
      invariant op == OpAt(tree.more, i)
      invariant forall y :: y in nodes <==> MeansUpTo(cfg, tree, i, y)
    {
      forall y
        ensures MeansUpTo(cfg, tree, i + 1, y) <==>
          if tree.more[i].Sign? then MeansUpTo(cfg, tree, i, y)
          else Combined(OpAt(tree.more, i), MeansUpTo(cfg, tree, i, y), Means(cfg, tree.more[i].tree, y))
      {
        NextPart(cfg, tree, i, y);
      }
      match tree.more[i]
      case Sign(sign) =>
        op := sign;
      case Operand(operand) =>
        var more := Evaluate(cfg, operand);
        nodes := match op case Union => nodes + more case Subtract => nodes - more case Intersect => nodes * more;
    }
    forall y
      ensures Means(cfg, tree, y) <==> MeansUpTo(cfg, tree, |tree.more|, y)
    {
      AllParts(cfg, tree, y);
    }
  }

  function Commas(tokens: seq<Token>): (parts: seq<Part>)
    ensures |parts| == 2 * |tokens|
  {
    seq(2 * |tokens|, i requires 0 <= i < 2 * |tokens| =>
          if i % 2 == 0 then Sign(Union) else Operand(Text(tokens[i / 2])))
  }

  /** The tokens that the printer joins with commas, as they are read back. */
  function Listed(tokens: seq<Token>): (tree: Tree)
    requires tokens != []
    ensures tree.Group?
  {
    Group(Text(tokens[0]), Commas(tokens[1..]))
  }

  lemma ListedIsGrounded(cfg: Config, tokens: seq<Token>)
    requires tokens != [] && forall j :: 0 <= j < |tokens| ==> AllEntities(cfg, tokens[j])
    ensures Grounded(cfg, Listed(tokens))
  {
    hide AllEntities;
    var more := Commas(tokens[1..]);
    forall i | 0 <= i < |more| && more[i].Operand?
      ensures Grounded(cfg, more[i].tree)
    {
      assert more[i].tree == Text(tokens[i / 2 + 1]);
    }
  }

  lemma {:induction false} OnlyUnions(parts: seq<Part>, i: nat)
    requires i <= |parts| && forall j :: 0 <= j < |parts| && parts[j].Sign? ==> parts[j].op == Union
    ensures OpAt(parts, i) == Union
  {
    if i > 0 {
      OnlyUnions(parts, i - 1);
    }
  }

  lemma StaysInUnion(cfg: Config, tree: Tree, a: nat, y: string)
    requires Grounded(cfg, tree) && tree.Group? && a <= |tree.more|
    requires forall i :: 0 <= i < |tree.more| ==> OpAt(tree.more, i) == Union
    ensures Stays(cfg, tree, a, |tree.more|, y)
  {
    hide OpAt, Means, Grounded;
  }

  /** Without ',-' and '@' an expression means the union of its operands. */
  lemma UnionMeans(cfg: Config, tree: Tree, y: string)
    requires Grounded(cfg, tree) && tree.Group?
    requires forall i :: 0 <= i < |tree.more| && tree.more[i].Sign? ==> tree.more[i].op == Union
    ensures Means(cfg, tree, y) <==>
      (|| Means(cfg, tree.first, y)
       || exists i :: 0 <= i < |tree.more| && tree.more[i].Operand? && Means(cfg, tree.more[i].tree, y))
  {
    var more := tree.more;
    forall i | 0 <= i <= |more|
      ensures OpAt(more, i) == Union
    {
      OnlyUnions(more, i);
    }
    hide Grounded, OpAt, Stays;
    forall i | 0 <= i <= |more|
      ensures Stays(cfg, tree, i, |more|, y)
    {
      StaysInUnion(cfg, tree, i, y);
    }
    AllParts(cfg, tree, y);
    hide Means;
    if i :| 0 <= i < |more| && more[i].Operand? && Means(cfg, more[i].tree, y) {
      assert Stays(cfg, tree, i + 1, |more|, y);
    }
  }

  /** A list of tokens means their union. */
  lemma ListedMeans(cfg: Config, tokens: seq<Token>, y: string)
    requires tokens != [] && forall j :: 0 <= j < |tokens| ==> AllEntities(cfg, tokens[j])
    ensures Grounded(cfg, Listed(tokens))
    ensures Means(cfg, Listed(tokens), y) <==> exists j :: 0 <= j < |tokens| && Yields(cfg, tokens[j], y)
  {
    ListedIsGrounded(cfg, tokens);
    var tree := Listed(tokens);
    var more := tree.more;
    UnionMeans(cfg, tree, y);
    assert Means(cfg, tree.first, y) <==> Yields(cfg, tokens[0], y);
    forall i | 0 <= i < |more| && more[i].Operand?
      ensures Means(cfg, more[i].tree, y) <==> Yields(cfg, tokens[i / 2 + 1], y)
    {
      assert more[i].tree == Text(tokens[i / 2 + 1]);
    }
    hide AllEntities, Yields, Grounded, Means;
    if j :| 1 <= j < |tokens| && Yields(cfg, tokens[j], y) {
      assert more[2 * j - 1] == Operand(Text(tokens[j]));
    }
  }

  // ----- abbreviating and expanding a list of names -----

  /** The tokens together stand for exactly these names. */
  ghost predicate Stands(tokens: seq<Token>, names: seq<string>) {
    forall s :: (exists j :: 0 <= j < |tokens| && Denotes(tokens[j], s)) <==> s in names
  }

  /** No name is in two tokens. */
  ghost predicate Singly(tokens: seq<Token>) {
    forall i, j, s :: 0 <= i < j < |tokens| && Denotes(tokens[i], s) ==> !Denotes(tokens[j], s)
  }

  function Numbers(names: seq<string>): (ns: seq<Tuple>)
    ensures |ns| == |names|
    ensures forall i :: 0 <= i < |names| ==> ns[i] == Split(names[i]).nums
  {
    seq(|names|, i requires 0 <= i < |names| => Split(names[i]).nums)
  }

  /** Neither a colon nor the braces that str.format reads; the grammar of node ranges has
      no braces either. */
  predicate Ordinary(name: string) {
    BeforeColon(name) == name && '{' !in name && '}' !in name
  }

  /** Ordinary names of one text. */
  ghost predicate OneText(names: seq<string>) {
    && names != []
    && forall i :: 0 <= i < |names| ==> Split(names[i]).texts == Split(names[0]).texts && Ordinary(names[i])
  }

  lemma NumbersAreTuples(names: seq<string>)
    requires OneText(names)
    ensures Tuples(Numbers(names), |Split(names[0]).nums|)
  {
    hide Split;
  }

  /** In the order of their numbers, and such that nothing is lost. */
  ghost predicate Abbreviable(names: seq<string>)
    requires OneText(names)
  {
    NumbersAreTuples(names);
    var count := |Split(names[0]).nums|;
    Ascending(Numbers(names), count) && KeepsAll(Numbers(names), count)
  }

  lemma ProcessStep(ns: seq<Tuple>, count: nat)
    requires Tuples(ns, count) && ns != []
    ensures Process(ns, count) == Extend(Process(ns[..|ns| - 1], count), ns[|ns| - 1])
  {
    hide Extend;
  }

  lemma NoNumbers(names: seq<string>)
    requires OneText(names) && Split(names[0]).nums == []
    ensures |names| > 1 ==> exists i, j :: 0 <= i < j < |names| && Numbers(names)[i] == Numbers(names)[j]
  {
    hide Split;
    if |names| > 1 {
      assert Numbers(names)[0] == [] == Numbers(names)[1];
    }
  }

  /** Distinct names of one text without numbers are one name. */
  lemma SoleName(names: seq<string>)
    requires OneText(names) && Abbreviable(names) && Split(names[0]).nums == []
    ensures Stands([AddWord([], names[0])], names) && Singly([AddWord([], names[0])])
  {
    hide Split, KeepsAll, Denotes;
    NumbersAreTuples(names);
    NoNumbers(names);
    assert names == [names[0]];
    var tokens := [AddWord([], names[0])];
    forall s
      ensures (exists j :: 0 <= j < |tokens| && Denotes(tokens[j], s)) <==> s in names
    {
      assert s in names <==> s == names[0];
      assert Denotes(tokens[0], s) <==> (exists j :: 0 <= j < |tokens| && Denotes(tokens[j], s));
      DenotesWord([], names[0], s);
      if EndsIn(s, names[0]) {
        NothingDenotes(s[..|s| - |names[0]|]);
        assert s == s[..|s| - |names[0]|] + names[0];
      }
      NothingDenotes(names[0][..0]);
    }
  }

  /** The tokens are what is printed for the names' numbers, and that is all of them. */
  ghost predicate Prints(names: seq<string>, tokens: seq<Token>)
    requires OneText(names)
  {
    var ns, count, texts := Numbers(names), |Split(names[0]).nums|, Split(names[0]).texts;
    && Tuples(ns, count) && Covers(Printed(ns, count), ns)
    && (forall j :: 0 <= j < |Printed(ns, count)| ==> |Printed(ns, count)[j]| == count)
    && tokens == Rendered(texts, Printed(ns, count))
  }

  /** A token that stands for a name matches the name's own numbers. */
  lemma PrintedMatches(names: seq<string>, tokens: seq<Token>, j: nat, s: string)
    requires OneText(names) && Prints(names, tokens) && j < |tokens| && Denotes(tokens[j], s)
    ensures Tuples(Numbers(names), |Split(names[0]).nums|) && j < |Printed(Numbers(names), |Split(names[0]).nums|)|
    ensures Matches(Printed(Numbers(names), |Split(names[0]).nums|)[j], Split(s).nums)
  {
    hide Split, Printed, Matches, Denotes, Join, Render, VariesOnce;
    var ns, count, texts := Numbers(names), |Split(names[0]).nums|, Split(names[0]).texts;
    var printed := Printed(ns, count);
    assert tokens[j] == Render(texts, printed[j]);
    var t := RenderedIsJoined(texts, printed[j], s);
    assert Shown(printed, t);
    var a :| 0 <= a < |ns| && ns[a] == t;
    JoinUndoesSplit(names[a]);
  }

  lemma PrintedIsSingly(names: seq<string>, tokens: seq<Token>)
    requires OneText(names) && Prints(names, tokens)
    ensures Singly(tokens)
  {
    hide Split, Printed, Matches, Denotes, Join, Render, VariesOnce;
    forall i, j, s | 0 <= i < j < |tokens| && Denotes(tokens[i], s)
      ensures !Denotes(tokens[j], s)
    {
      PrintedMatches(names, tokens, i, s);
      if Denotes(tokens[j], s) {
        PrintedMatches(names, tokens, j, s);
      }
    }
  }

  /** Earlier tokens are for earlier names. */
  ghost predicate Orderly(tokens: seq<Token>, names: seq<string>) {
    forall i, j, a, b :: 0 <= i < j < |tokens| && 0 <= a < |names| && 0 <= b < |names| ==>
      (Denotes(tokens[i], names[a]) && Denotes(tokens[j], names[b]) ==> a < b)
  }

  lemma OneIsOrderly(tokens: seq<Token>, names: seq<string>)
    requires |tokens| == 1
    ensures Orderly(tokens, names)
  {
  }

  lemma PrintedIsOrderly(names: seq<string>, tokens: seq<Token>)
    requires OneText(names) && Prints(names, tokens)
    ensures Orderly(tokens, names)
  {
    hide Split, Printed, Matches, Denotes, Join, Render, Whole;
    forall i, j, a, b | 0 <= i < j < |tokens| && 0 <= a < |names| && 0 <= b < |names|
                        && Denotes(tokens[i], names[a]) && Denotes(tokens[j], names[b])
      ensures a < b
    {
      PrintedMatches(names, tokens, i, names[a]);
      PrintedMatches(names, tokens, j, names[b]);
      assert Numbers(names)[a] == Split(names[a]).nums && Numbers(names)[b] == Split(names[b]).nums;
    }
  }

  lemma PrintedStands(names: seq<string>, tokens: seq<Token>)
    requires OneText(names) && Prints(names, tokens)
    ensures Stands(tokens, names)
  {
    hide Split, Printed, Matches, Denotes, Join, Render, VariesOnce, InOrder;
    var ns, count, texts := Numbers(names), |Split(names[0]).nums|, Split(names[0]).texts;
    var printed := Printed(ns, count);
    forall s
      ensures (exists j :: 0 <= j < |tokens| && Denotes(tokens[j], s)) <==> s in names
    {
      if j :| 0 <= j < |tokens| && Denotes(tokens[j], s) {
        assert tokens[j] == Render(texts, printed[j]);
        RenderDenotes(texts, printed[j], s);
        var t := RenderedIsJoined(texts, printed[j], s);
        assert Shown(printed, t);
        var i :| 0 <= i < |ns| && ns[i] == t;
        JoinUndoesSplit(names[i]);
      }
      if i :| 0 <= i < |names| && names[i] == s {
        JoinUndoesSplit(s);
        assert ns[i] in ns;
        assert Shown(printed, ns[i]);
        var j :| 0 <= j < |printed| && Matches(printed[j], ns[i]);
        RenderDenotes(texts, printed[j], s);
        assert tokens[j] == Render(texts, printed[j]);
      }
    }
  }

  /** A bracket holds a range or several entries, and between neighbouring entries there is a
      number missing. */
  predicate Tidy(token: Token) {
    forall i :: 0 <= i < |token| && token[i].Bracket? ==>
      Gapped(token[i].entries) && !(|token[i].entries| == 1 && AllDigits(token[i].entries[0]))
  }

  lemma WordKeepsTidy(token: Token, w: string)
    requires Tidy(token)
    ensures Tidy(AddWord(token, w))
  {
    hide Gapped;
  }

  lemma FieldKeepsTidy(token: Token, entries: seq<string>)
    requires Tidy(token) && Gapped(entries)
    ensures Tidy(AddField(token, entries))
  {
    hide Gapped, AddWord;
    if |entries| == 1 && AllDigits(entries[0]) {
      WordKeepsTidy(token, entries[0]);
    }
  }

  lemma NothingIsTidy()
    ensures Tidy([])
  {
  }

  lemma {:induction false} RenderIsTidy(texts: seq<string>, items: Items)
    requires |texts| == |items| + 1 && AllGapped(items)
    ensures Tidy(Render(texts, items))
    decreases |items|
  {
    hide Tidy, AddWord, AddField, Gapped;
    assert Tidy([]) by { NothingIsTidy(); }
    if items == [] {
      WordKeepsTidy([], texts[0]);
    } else {
      var n := |items|;
      var front := Render(texts[..n], items[..n - 1]);
      RenderIsTidy(texts[..n], items[..n - 1]);
      FieldKeepsTidy(front, items[n - 1]);
      WordKeepsTidy(AddField(front, items[n - 1]), texts[n]);
      RenderStep(texts, items);
    }
  }

  lemma SoleIsTidy(name: string)
    ensures Tidy(AddWord([], name))
  {
    NothingIsTidy();
    WordKeepsTidy([], name);
  }

  lemma PrintedIsTidy(texts: seq<string>, ns: seq<Tuple>, count: nat)
    requires Tuples(ns, count) && forall j :: 0 <= j < |Printed(ns, count)| ==> |texts| == |Printed(ns, count)[j]| + 1
    ensures forall j :: 0 <= j < |Printed(ns, count)| ==> Tidy(Rendered(texts, Printed(ns, count))[j])
  {
    hide Printed, Render, Gapped, Tidy;
    PrintedIsGapped(ns, count);
    forall j | 0 <= j < |Printed(ns, count)|
      ensures Tidy(Rendered(texts, Printed(ns, count))[j])
    {
      RenderIsTidy(texts, Printed(ns, count)[j]);
    }
  }

  /** What is promised of the tokens. */
  ghost predicate Abbreviates(tokens: seq<Token>, names: seq<string>)
    requires names != []
  {
    && Stands(tokens, names) && Singly(tokens) && Orderly(tokens, names)
    && (forall j :: 0 <= j < |tokens| ==> Tidy(tokens[j]))
    && (|Split(names[0]).nums| == 1 ==> Tuples(Numbers(names), 1) && |tokens| == 1 + Clashes(Numbers(names)))
  }

  lemma SoleAbbreviates(names: seq<string>)
    requires OneText(names) && Abbreviable(names) && Split(names[0]).nums == []
    ensures Abbreviates([AddWord([], names[0])], names)
  {
    hide Tidy, Singly, Orderly, Split, Stands, Clashes;
    SoleName(names);
    OneIsOrderly([AddWord([], names[0])], names);
    SoleIsTidy(names[0]);
  }

  lemma PrintedAbbreviates(names: seq<string>, tokens: seq<Token>)
    requires OneText(names) && Abbreviable(names) && Split(names[0]).nums != [] && Prints(names, tokens)
    ensures Abbreviates(tokens, names)
  {
    hide Tidy, Clashes, Singly, Orderly, Split, Stands, Covers, Printed, Abbreviable;
    PrintedStands(names, tokens);
    PrintedIsSingly(names, tokens);
    PrintedIsOrderly(names, tokens);
    PrintedIsTidy(Split(names[0]).texts, Numbers(names), |Split(names[0]).nums|);
    if |Split(names[0]).nums| == 1 {
      OneNumberTokens(Numbers(names));
    }
  }

  /** The bracketer run over a chunk, lines 243-246 and 256-259. */
  method Abbreviate(names: seq<string>) returns (tokens: seq<Token>)
    requires OneText(names) && Abbreviable(names)
    ensures Abbreviates(tokens, names)
  {
    hide Abbreviates, Split, Extend, Ascending, KeepsAll, Closed, Flush, Rendered, BeforeColon, Covers;
    NumbersAreTuples(names);
    ghost var ns, count := Numbers(names), |Split(names[0]).nums|;
    var bracketer := new Bracketer(names[0]);
    assert ns[..1] == [Split(BeforeColon(names[0])).nums];
    for i := 1 to |names|
      invariant bracketer.Valid() && bracketer.Model() == Process(ns[..i], count)
    {
      assert ns[..i + 1][..i] == ns[..i];
      ProcessStep(ns[..i + 1], count);
      bracketer.ExtendWith(names[i]);
    }
    assert ns[..|names|] == ns;
    tokens := bracketer.Range();
    if count == 0 {
      SoleAbbreviates(names);
    } else {
      RoundTrip(ns, count);
      assert Prints(names, tokens);
      PrintedAbbreviates(names, tokens);
    }
  }

  /** The check of lines 484-492: abbreviate, expand without a config, compare. */
  method RoundTripCase(names: seq<string>) returns (tokens: seq<Token>, resnodes: set<string>)
    requires OneText(names) && Abbreviable(names)
    requires forall i :: 0 <= i < |names| ==> Entity(NoConfig, names[i])
    ensures resnodes == set n | n in names
  {
    assert names[0] in names;
    hide OneText, Abbreviable, Entity, Denotes, Tidy, Orderly, Singly;
    tokens := Abbreviate(names);
    forall j | 0 <= j < |tokens|
      ensures AllEntities(NoConfig, tokens[j])
    {
      forall s | Denotes(tokens[j], s)
        ensures Entity(NoConfig, s)
      {
        assert s in names;
      }
    }
    assert tokens != [];
    ListedIsGrounded(NoConfig, tokens);
    resnodes := Evaluate(NoConfig, Listed(tokens));
    forall y
      ensures y in resnodes <==> y in names
    {
      ListedMeans(NoConfig, tokens, y);
      if y in names {
        var j :| 0 <= j < |tokens| && Denotes(tokens[j], y);
        assert Yields(NoConfig, tokens[j], y);
      }
    }
  }
}
