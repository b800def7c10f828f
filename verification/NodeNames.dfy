/** Node names as strings: cut into texts and numbers as re.split('([0-9]+)') cuts them,
    lines 45-66 of noderange.py, and the bracketed tokens built from the pieces. */
module NodeNames {
  import opened NumberText
  import opened BracketModel
  import opened BracketRoundTrip

  /** A name cut at its numbers: one more text than numbers, texts possibly empty. */
  datatype Parts = Parts(texts: seq<string>, nums: Tuple)

  function Split(s: string): (p: Parts)
    ensures |p.texts| == |p.nums| + 1 && IsTuple(p.nums)
  {
    if s == "" then Parts([""], [])
    else
      var p, c := Split(s[..|s| - 1]), s[|s| - 1];
      var t, n := |p.texts| - 1, |p.nums| - 1;
      if !IsDigit(c) then Parts(p.texts[t := p.texts[t] + [c]], p.nums)
      else if p.texts[t] == "" && p.nums != [] then
        assert forall f :: 0 <= f < |p.nums| ==> AllDigits(p.nums[f]);
        Parts(p.texts, p.nums[n := p.nums[n] + [c]])
      else Parts(p.texts + [""], p.nums + [[c]])
  }

  function Join(texts: seq<string>, nums: Tuple): string
    requires |texts| == |nums| + 1
  {
    if nums == [] then texts[0]
    else Join(texts[..|texts| - 1], nums[..|nums| - 1]) + nums[|nums| - 1] + texts[|texts| - 1]
  }

  lemma JoinText(texts: seq<string>, nums: Tuple, c: char)
    requires |texts| == |nums| + 1
    ensures Join(texts[|nums| := texts[|nums|] + [c]], nums) == Join(texts, nums) + [c]
  {
    var n := |nums|;
    if n > 0 {
      assert texts[n := texts[n] + [c]][..n] == texts[..n];
    }
  }

  lemma JoinDigit(texts: seq<string>, nums: Tuple, c: char)
    requires |texts| == |nums| + 1 && nums != [] && texts[|nums|] == ""
    ensures Join(texts, nums[|nums| - 1 := nums[|nums| - 1] + [c]]) == Join(texts, nums) + [c]
  {
    var n := |nums| - 1;
    assert nums[n := nums[n] + [c]][..n] == nums[..n];
  }

  /** Cutting loses nothing. */
  lemma {:induction false} JoinUndoesSplit(s: string)
    ensures Join(Split(s).texts, Split(s).nums) == s
  {
    if s != "" {
      var front, c := s[..|s| - 1], s[|s| - 1];
      JoinUndoesSplit(front);
      assert s == front + [c];
      var p := Split(front);
      var t, n := |p.texts| - 1, |p.nums| - 1;
      if !IsDigit(c) {
        JoinText(p.texts, p.nums, c);
      } else if p.texts[t] == "" && p.nums != [] {
        JoinDigit(p.texts, p.nums, c);
      } else {
        assert (p.texts + [""])[..t + 1] == p.texts && (p.nums + [[c]])[..n + 1] == p.nums;
      }
    }
  }

  // ----- tokens -----

  /** What the grammar makes of a token: plain words and bracketed lists between them. */
  datatype Elem = Word(text: string) | Bracket(entries: seq<string>)
  type Token = seq<Elem>

  /** Text at the end of a token; neighbouring words are one word. */
  function AddWord(token: Token, w: string): Token {
    if w == "" then token
    else if token != [] && token[|token| - 1].Word? then
      token[..|token| - 1] + [Word(token[|token| - 1].text + w)]
    else token + [Word(w)]
  }

  /** txtfield of lines 159-163: bare when it is all digits, else in brackets. */
  function AddField(token: Token, entries: seq<string>): Token {
    if |entries| == 1 && AllDigits(entries[0]) then AddWord(token, entries[0]) else token + [Bracket(entries)]
  }

  function Render(texts: seq<string>, items: Items): Token
    requires |texts| == |items| + 1
  {
    if items == [] then AddWord([], texts[0])
    else AddWord(AddField(Render(texts[..|texts| - 1], items[..|items| - 1]), items[|items| - 1]), texts[|texts| - 1])
  }

  predicate EndsIn(s: string, w: string) {
    |w| <= |s| && s[|s| - |w|..] == w
  }

  /** The strings a token stands for: each bracket replaced by one of the numbers it lists. */
  ghost predicate Denotes(token: Token, s: string) {
    if token == [] then s == ""
    else
      var front, last := token[..|token| - 1], token[|token| - 1];
      if last.Word? then EndsIn(s, last.text) && Denotes(front, s[..|s| - |last.text|])
      else exists m :: 0 <= m <= |s| && Denotes(front, s[..m]) && Lists(last.entries, s[m..])
  }

  lemma EverythingEndsInNothing(s: string)
    ensures EndsIn(s, "")
  {
  }

  function WithoutEnd(s: string, w: string): (p: string)
    requires EndsIn(s, w)
  {
    s[..|s| - |w|]
  }

  lemma TwoEnds(s: string, w0: string, w: string)
    ensures EndsIn(s, w0 + w) <==> EndsIn(s, w) && EndsIn(s[..|s| - |w|], w0)
  {
    if |w0 + w| <= |s| {
      var p := s[..|s| - |w|];
      assert s[|s| - |w0 + w|..] == p[|p| - |w0|..] + s[|s| - |w|..];
      assert (w0 + w)[..|w0|] == w0 && (w0 + w)[|w0|..] == w;
    }
  }

  lemma DenotesLast(token: Token, e: Elem, s: string)
    ensures e.Word? ==>
              (Denotes(token + [e], s) <==> EndsIn(s, e.text) && Denotes(token, s[..|s| - |e.text|]))
    ensures e.Bracket? ==>
              (Denotes(token + [e], s)
               <==> exists m :: 0 <= m <= |s| && Denotes(token, s[..m]) && Lists(e.entries, s[m..]))
  {
    hide Lists;
    assert (token + [e])[..|token|] == token;
  }

  lemma DenotesWord(token: Token, w: string, s: string)
    ensures Denotes(AddWord(token, w), s) <==> EndsIn(s, w) && Denotes(token, s[..|s| - |w|])
  {
    hide Denotes, Lists;
    if w == "" {
      assert s[..|s|] == s && s[|s|..] == "";
      assert EndsIn(s, "") by { EverythingEndsInNothing(s); }
    } else if token != [] && token[|token| - 1].Word? {
      var front, w0 := token[..|token| - 1], token[|token| - 1].text;
      assert front + [Word(w0)] == token;
      TwoEnds(s, w0, w);
      DenotesLast(front, Word(w0 + w), s);
      if EndsIn(s, w) {
        var p := WithoutEnd(s, w);
        DenotesLast(front, Word(w0), p);
        assert EndsIn(p, w0) ==> WithoutEnd(s, w0 + w) == WithoutEnd(p, w0);
      }
    } else {
      DenotesLast(token, Word(w), s);
    }
  }

  lemma OneEntry(entries: seq<string>)
    requires |entries| == 1 && ExpandItem(entries[0]) == {entries[0]}
    ensures forall x :: Lists(entries, x) <==> x == entries[0]
  {
    hide ExpandItem;
  }

  lemma DenotesField(token: Token, entries: seq<string>, s: string)
    ensures Denotes(AddField(token, entries), s)
       <==> exists m :: 0 <= m <= |s| && Denotes(token, s[..m]) && Lists(entries, s[m..])
  {
    hide ExpandItem, Lists, Denotes;
    if |entries| == 1 && AllDigits(entries[0]) {
      SingleItemMeans(entries[0]);
      OneEntry(entries);
      DenotesWord(token, entries[0], s);
      if EndsIn(s, entries[0]) {
        assert s[|s| - |entries[0]|..] == entries[0];
      }
    } else {
      DenotesLast(token, Bracket(entries), s);
    }
  }

  lemma EndRestored(s: string, w: string)
    requires EndsIn(s, w)
    ensures s == WithoutEnd(s, w) + w
  {
  }

  lemma FieldAndWord(front: Token, entries: seq<string>, text: string, s: string) returns (q: string, x: string)
    requires Denotes(AddWord(AddField(front, entries), text), s)
    ensures s == q + x + text && Lists(entries, x) && Denotes(front, q)
  {
    hide Denotes, Lists, AddWord, AddField, EndsIn;
    DenotesWord(AddField(front, entries), text, s);
    var p := WithoutEnd(s, text);
    DenotesField(front, entries, p);
    var m :| 0 <= m <= |p| && Denotes(front, p[..m]) && Lists(entries, p[m..]);
    q, x := p[..m], p[m..];
    assert p == q + x;
    EndRestored(s, text);
  }

  lemma RenderStep(texts: seq<string>, items: Items)
    requires |texts| == |items| + 1 && items != []
    ensures var n := |items|;
      Render(texts, items) == AddWord(AddField(Render(texts[..n], items[..n - 1]), items[n - 1]), texts[n])
  {
  }

  /** A string of a token ends in a number of the last field and the last text. */
  lemma LastField(texts: seq<string>, items: Items, s: string) returns (q: string, x: string)
    requires |texts| == |items| + 1 && items != [] && Denotes(Render(texts, items), s)
    ensures var n := |items|;
      s == q + x + texts[n] && Lists(items[n - 1], x) && Denotes(Render(texts[..n], items[..n - 1]), q)
  {
    hide Denotes, Lists, Render, AddWord, AddField;
    RenderStep(texts, items);
    var n := |items|;
    q, x := FieldAndWord(Render(texts[..n], items[..n - 1]), items[n - 1], texts[n], s);
  }

  lemma JoinSnoc(texts: seq<string>, t: Tuple)
    requires |texts| == |t| + 1 && t != []
    ensures Join(texts, t) == Join(texts[..|t|], t[..|t| - 1]) + t[|t| - 1] + texts[|t|]
  {
  }

  lemma NothingDenotes(s: string)
    ensures Denotes([], s) <==> s == ""
  {
  }

  lemma MatchesSnoc(items: Items, t: Tuple)
    requires items != [] && |t| == |items|
    ensures Matches(items, t) <==> Matches(items[..|items| - 1], t[..|t| - 1]) && Lists(items[|items| - 1], t[|t| - 1])
  {
    hide Lists;
  }

  lemma {:induction false} RenderedIsJoined(texts: seq<string>, items: Items, s: string) returns (t: Tuple)
    requires |texts| == |items| + 1 && Denotes(Render(texts, items), s)
    ensures |t| == |items| && Matches(items, t) && s == Join(texts, t)
    decreases |items|
  {
    hide Denotes, Lists;
    var n := |items|;
    if items == [] {
      DenotesWord([], texts[0], s);
      NothingDenotes(s[..|s| - |texts[0]|]);
      t := [];
    } else {
      hide Join, Matches, Render, AddWord, AddField, EndsIn;
      var q, x := LastField(texts, items, s);
      var t0 := RenderedIsJoined(texts[..n], items[..n - 1], q);
      t := t0 + [x];
      assert t[..n - 1] == t0;
      MatchesSnoc(items, t);
      JoinSnoc(texts, t);
    }
  }

  lemma {:induction false} JoinedIsRendered(texts: seq<string>, items: Items, t: Tuple)
    requires |texts| == |items| + 1 && Matches(items, t)
    ensures Denotes(Render(texts, items), Join(texts, t))
    decreases |items|
  {
    hide Denotes, Lists;
    var n := |items|;
    var s := Join(texts, t);
    if items == [] {
      DenotesWord([], texts[0], s);
      NothingDenotes(s[..0]);
    } else {
      var front := Render(texts[..n], items[..n - 1]);
      MatchesSnoc(items, t);
      JoinedIsRendered(texts[..n], items[..n - 1], t[..n - 1]);
      RenderStep(texts, items);
      var q, x := Join(texts[..n], t[..n - 1]), t[n - 1];
      hide Render;
      assert s == q + x + texts[n];
      assert (q + x)[..|q|] == q && (q + x)[|q|..] == x;
      DenotesField(front, items[n - 1], q + x);
      assert s[..|s| - |texts[n]|] == q + x && EndsIn(s, texts[n]);
      DenotesWord(AddField(front, items[n - 1]), texts[n], s);
    }
  }

  /** A printed token stands for exactly the names its fields contain. */
  lemma {:induction false} RenderDenotes(texts: seq<string>, items: Items, s: string)
    requires |texts| == |items| + 1
    ensures Denotes(Render(texts, items), s) <==> exists t :: Matches(items, t) && s == Join(texts, t)
  {
    if items == [] {
      DenotesWord([], texts[0], s);
      assert Matches([], []) && Join(texts, []) == texts[0];
      assert forall t: Tuple :: Matches([], t) ==> t == [];
    } else {
      hide Render, Denotes, Lists, Join, Matches;
      if Denotes(Render(texts, items), s) {
        var t := RenderedIsJoined(texts, items, s);
      }
      if t :| Matches(items, t) && s == Join(texts, t) {
        JoinedIsRendered(texts, items, t);
      }
    }
  }
}
