/** The failover of urlmount.c: the thread that serves reads moves on through the URLs as
    downloads fail, while a second thread looks for a preferred URL that is back. The two
    share urlidx and newidx under a mutex; each locked section is one step here, and the
    steps interleave in any order. */
module UrlMount {
  import opened Common

  /** The URL after this one, among n. */
  function Next(i: nat, n: nat): nat { if i + 1 < n then i + 1 else 0 }

  function BeginSection(urlidx: nat, newidx: nat): (nat, nat, bool) {
    if newidx < MAX then (newidx, MAX, true) else (urlidx, newidx, false)
  }

  /** MAX_URL_PATHS: also the value of newidx that means no change is wanted. */
  const MAX: nat := 512

  // ----- the locked sections -----

  /** The variables behind url_state_lock, and the table both threads read. */
  class Shared {
    const urls: array<Option<string>>
    var urlidx: nat
    var newidx: nat

    constructor (urls: array<Option<string>>, urlidx: nat)
      ensures this.urls == urls && this.urlidx == urlidx && newidx == MAX
    {
      this.urls, this.urlidx, newidx := urls, urlidx, MAX;
    }

    /** The first n entries are set and the one after them is not. */
    ghost predicate Registered(n: nat)
      reads this, urls
    {
      && urls.Length == 513 && 1 <= n <= 512 && urlidx < n && (newidx == MAX || newidx < n)
      && forall i :: 0 <= i <= n ==> (urls[i].Some? <==> i < n)
    }

    /** Lines 187-195: a read begins, and takes a change of URL if one is wanted. */
    method Begin(ghost n: nat) returns (startidx: nat, reconnecting: bool, current_url: Option<string>)
      requires Registered(n)
      modifies this
      ensures Registered(n) && current_url.Some? && current_url == urls[urlidx]
      ensures startidx == old(urlidx) && newidx == MAX
      ensures reconnecting <==> old(newidx) != MAX
      ensures urlidx == if reconnecting then old(newidx) else old(urlidx)
      ensures (urlidx, newidx, reconnecting) == BeginSection(old(urlidx), old(newidx))
    {
      startidx := urlidx;
      reconnecting := false;
      if newidx < MAX {
        reconnecting := true;
        urlidx := newidx;
        newidx := MAX;
      }
      current_url := urls[urlidx];
    }

    /** Lines 210-216: on to the next URL, back to the first after the last. */
    method Advance(ghost n: nat, startidx: nat) returns (wrapped: bool, current_url: Option<string>)
      requires Registered(n)
      modifies this
      ensures Registered(n) && current_url.Some? && current_url == urls[urlidx]
      ensures urlidx == Next(old(urlidx), n) && newidx == old(newidx)
      ensures wrapped <==> urlidx == startidx
    {
      urlidx := urlidx + 1;
      if urlidx > MAX || urls[urlidx] == None {
        urlidx := 0;
      }
      wrapped := urlidx == startidx;
      current_url := urls[urlidx];
    }

    /** The loop of lines 116-129 over one snapshot; works says whether a probe succeeds. */
    method FindPreferred(ghost n: nat, current_urlidx: nat, current_newidx: nat, works: nat -> bool)
      returns (found: Option<nat>)
      requires Registered(n) && current_urlidx < n
      ensures found.Some? ==> found.value < current_urlidx && found.value < current_newidx
      ensures found.Some? ==> found.value < n && works(found.value)
      ensures forall i :: 0 <= i < current_urlidx && i < current_newidx && works(i) ==> found.Some? && found.value <= i
    {
      var tmpidx := 0;
      while tmpidx < current_urlidx && tmpidx < current_newidx && urls[tmpidx] != None
        invariant tmpidx <= current_urlidx
        invariant forall i :: 0 <= i < tmpidx ==> !works(i)
      {
        if works(tmpidx) {
          return Some(tmpidx);
        }
        tmpidx := tmpidx + 1;
      }
      return None;
    }
  }

  // ----- the download buffer -----

  /** fill_buffer */
  method FillBuffer(response: array<Byte>, completed: nat, total: nat, data: seq<Byte>)
    returns (completed': nat, amount: nat)
    requires completed <= total <= response.Length
    modifies response
    ensures if total < |data| + completed then
              amount == 0 && completed' == completed && response[..] == old(response[..])
            else amount == |data| && completed' == completed + |data| <= total
                 && response[..] == old(response[..completed]) + data + old(response[completed + |data|..])
  {
    amount := |data|;
    if total < amount + completed {
      return completed, 0;
    }
    forall i | 0 <= i < amount {
      response[completed + i] := data[i];
    }
    completed' := completed + amount;
  }

  // ----- the two threads -----

  /** Where the reading thread is. In Attempt the download runs; Refused means that
      fill_buffer has turned a chunk down, so that the download can only fail. */
  datatype Reader =
    | Idle
    | Begun(reconnecting: bool)
    | Attempt
    | Refused
    | Failed
    | Chosen(wrapped: bool)

  /** Where the checking thread is: the snapshot it took and the index it is at. */
  datatype Rechecker =
    | Sleeping
    | Probing(urlidx: nat, newidx: nat, at: nat)
    | Found(urlidx: nat, newidx: nat, at: nat)

  /** The whole program. handle is the URL the reading thread's curl handle is set to,
      current its current_url, basis the snapshot of urlidx behind the last store to newidx. */
  datatype Mount = Mount(n: nat, urlidx: nat, newidx: nat, handle: nat, current: nat, startidx: nat, reader: Reader,
                         rechecker: Rechecker, basis: nat, response: seq<Byte>, completed: nat, total: nat)

  datatype Step =
    | BeginRead(buf: seq<Byte>)
    | SetFirstUrl
    | Chunk(data: seq<Byte>)
    | PerformFails
    | AdvanceUrl
    | SetNextUrl
    | PerformOk
    | Snapshot
    | Probe(works: bool)
    | GiveUp
    | Store

  /** The condition of the loop of line 117. */
  predicate GoesOn(r: Rechecker, n: nat)
    requires r.Probing?
  {
    r.at < r.urlidx && r.at < r.newidx && r.at < n
  }

  predicate Enabled(m: Mount, s: Step) {
    match s
    case BeginRead(buf) => m.reader == Idle && buf != []
    case SetFirstUrl => m.reader.Begun?
    case Chunk(data) => m.reader == Attempt
    case PerformFails => m.reader == Attempt || m.reader == Refused
    case PerformOk => m.reader == Attempt
    case AdvanceUrl => m.reader == Failed
    case SetNextUrl => m.reader.Chosen?
    case Snapshot => m.rechecker == Sleeping
    case Probe(works) => m.rechecker.Probing? && GoesOn(m.rechecker, m.n)
    case GiveUp => m.rechecker.Probing? && !GoesOn(m.rechecker, m.n)
    case Store => m.rechecker.Found?
  }

  function Do(m: Mount, s: Step): Mount
    requires Enabled(m, s) && m.completed <= m.total == |m.response|
  {
    match s
    case BeginRead(buf) =>
      var (u, w, re) := BeginSection(m.urlidx, m.newidx);
      m.(startidx := m.urlidx, urlidx := u, newidx := w, current := u, reader := Begun(re),
         response := buf, completed := 0, total := |buf|)
    case SetFirstUrl =>
      m.(handle := if m.reader.reconnecting then m.current else m.handle, reader := Attempt)
    case Chunk(data) =>
      if m.total < |data| + m.completed then m.(reader := Refused)
      else m.(response := m.response[..m.completed] + data + m.response[m.completed + |data|..],
              completed := m.completed + |data|)
    case PerformFails => m.(completed := 0, reader := Failed)
    case AdvanceUrl =>
      var u := Next(m.urlidx, m.n);
      m.(urlidx := u, current := u, reader := Chosen(u == m.startidx))
    case SetNextUrl => m.(handle := m.current, reader := Attempt)
    case PerformOk => m.(reader := Idle)
    case Snapshot => m.(rechecker := Probing(m.urlidx, m.newidx, 0))
    case Probe(works) =>
      m.(rechecker := if works then Found(m.rechecker.urlidx, m.rechecker.newidx, m.rechecker.at)
                    else Probing(m.rechecker.urlidx, m.rechecker.newidx, m.rechecker.at + 1))
    case GiveUp => m.(rechecker := Sleeping)
    case Store => m.(newidx := m.rechecker.at, basis := m.rechecker.urlidx, rechecker := Sleeping)
  }

  /** Both indexes name registered URLs; a wanted change is to a URL before the one that was
      current when the search for it began; and the handle is always set to the current URL
      when a download runs. */
  ghost predicate Inv(m: Mount) {
    && 1 <= m.n <= 512 && m.urlidx < m.n && m.handle < m.n
    && (m.newidx == MAX || (m.newidx < m.basis && m.basis < m.n))
    && (m.rechecker.Probing? ==> m.rechecker.urlidx < m.n)
    && (m.rechecker.Found? ==>
          m.rechecker.at < m.rechecker.urlidx < m.n && m.rechecker.at < m.rechecker.newidx)
    && (m.reader != Failed ==> m.current == m.urlidx)
    && (m.reader in {Idle, Attempt, Refused, Begun(false)} ==> m.handle == m.urlidx)
    && (m.reader != Idle ==> m.startidx < m.n)
    && m.completed <= m.total == |m.response|
  }

  /** After main has connected and http_init has set up the handle. */
  ghost predicate Started(m: Mount) {
    && 1 <= m.n <= 512 && m.urlidx < m.n && m.newidx == MAX && m.handle == m.current == m.urlidx
    && m.reader == Idle && m.rechecker == Sleeping && m.completed == m.total == |m.response|
  }

  lemma StepKeepsInv(m: Mount, s: Step)
    requires Inv(m) && Enabled(m, s)
    ensures Inv(Do(m, s))
  {
  }

  /** A run in the order the steps were taken; a step that is not enabled is not taken. */
  ghost function Run(m: Mount, steps: seq<Step>): (m': Mount)
    requires Inv(m)
    ensures Inv(m')
  {
    if steps == [] then m
    else
      var u, s := Run(m, steps[..|steps| - 1]), steps[|steps| - 1];
      if Enabled(u, s) then
        StepKeepsInv(u, s);
        Do(u, s)
      else u
  }

  lemma {:induction false} SameTable(m: Mount, steps: seq<Step>)
    requires Inv(m)
    ensures Run(m, steps).n == m.n
  {
    hide Inv;
    if steps != [] {
      SameTable(m, steps[..|steps| - 1]);
    }
  }

  /** Over every interleaving: the current URL is registered, a wanted one is too and comes
      before the one it was found instead of, and every download goes to urls[urlidx]. */
  lemma EveryInterleavingIsSafe(m: Mount, steps: seq<Step>)
    requires Started(m)
    ensures var u := Run(m, steps);
      && u.n == m.n && u.urlidx < u.n && (u.newidx == 512 || u.newidx < u.basis < u.n)
      && (u.reader == Attempt ==> u.handle == u.urlidx) && u.completed <= u.total
  {
    SameTable(m, steps);
  }

  /** The URLs of the downloads that ended, in order, whether well or not. */
  ghost function Tried(m: Mount, steps: seq<Step>): seq<nat>
    requires Inv(m)
  {
    if steps == [] then []
    else
      var u, s := Run(m, steps[..|steps| - 1]), steps[|steps| - 1];
      Tried(m, steps[..|steps| - 1]) + if Enabled(u, s) && (s.PerformFails? || s.PerformOk?) then [u.handle] else []
  }

  lemma RunStep(m: Mount, steps: seq<Step>, s: Step)
    requires Inv(m) && Enabled(Run(m, steps), s)
    ensures Run(m, steps + [s]) == Do(Run(m, steps), s)
    ensures Tried(m, steps + [s])
         == Tried(m, steps) + if s.PerformFails? || s.PerformOk? then [Run(m, steps).handle] else []
  {
    hide Inv, Do, Enabled;
    assert (steps + [s])[..|steps|] == steps;
  }

  // ----- a wanted change is taken once -----

  /** The URL that the last Store since the last BeginRead wants, if there was one. */
  ghost function Wanted(m: Mount, steps: seq<Step>): Option<nat>
    requires Inv(m)
  {
    if steps == [] then None
    else
      var front, s := steps[..|steps| - 1], steps[|steps| - 1];
      var u := Run(m, front);
      if !Enabled(u, s) then Wanted(m, front)
      else if s.Store? then Some(u.rechecker.at)
      else if s.BeginRead? then None
      else Wanted(m, front)
  }

  lemma StepOnWanted(u: Mount, s: Step)
    requires Inv(u) && Enabled(u, s)
    ensures Do(u, s).newidx == if s.Store? then u.rechecker.at else if s.BeginRead? then 512 else u.newidx
    ensures s.Store? ==> u.rechecker.at < 512
  {
  }

  /** Over every interleaving newidx is what the last Store since the last read put there, and
      512 if there was none. */
  lemma {:induction false} WantedIsKept(m: Mount, steps: seq<Step>)
    requires Started(m)
    ensures Run(m, steps).newidx == match Wanted(m, steps) case Some(i) => i case None => 512
    ensures Wanted(m, steps).Some? ==> Wanted(m, steps).value < 512
  {
    if steps != [] {
      hide Do, Enabled;
      var front, s := steps[..|steps| - 1], steps[|steps| - 1];
      WantedIsKept(m, front);
      hide Started;
      if Enabled(Run(m, front), s) {
        StepOnWanted(Run(m, front), s);
      }
    }
  }

  predicate OfChecker(s: Step) { s.Snapshot? || s.Probe? || s.GiveUp? || s.Store? }

  /** Nothing that belongs to the reading thread differs. */
  predicate SameRead(u: Mount, v: Mount) {
    && v.reader == u.reader && v.current == u.current && v.handle == u.handle
    && v.urlidx == u.urlidx && v.startidx == u.startidx
  }

  lemma SameReadTransitive(u: Mount, v: Mount, w: Mount)
    ensures SameRead(u, u) && (SameRead(u, v) && SameRead(v, w) ==> SameRead(u, w))
  {
  }

  lemma CheckerStep(u: Mount, s: Step)
    requires Inv(u) && Enabled(u, s) && OfChecker(s)
    ensures SameRead(u, Do(u, s))
  {
  }

  lemma NoStep(m: Mount, steps: seq<Step>, s: Step)
    requires Inv(m) && !Enabled(Run(m, steps), s)
    ensures Run(m, steps + [s]) == Run(m, steps)
  {
    hide Inv, Do, Enabled;
    assert (steps + [s])[..|steps|] == steps;
  }

  lemma OneCheckerStep(m: Mount, steps: seq<Step>, s: Step)
    requires Inv(m) && OfChecker(s)
    ensures SameRead(Run(m, steps), Run(m, steps + [s]))
  {
    hide Enabled, OfChecker, SameRead, Run, Do;
    var u := Run(m, steps);
    SameReadTransitive(u, u, u);
    if Enabled(u, s) {
      CheckerStep(u, s);
      RunStep(m, steps, s);
    } else {
      NoStep(m, steps, s);
    }
  }

  lemma {:induction false} CheckerSteps(m: Mount, steps: seq<Step>, more: seq<Step>)
    requires Inv(m) && forall i :: 0 <= i < |more| ==> OfChecker(more[i])
    ensures SameRead(Run(m, steps), Run(m, steps + more))
    decreases |more|
  {
    hide *;
    var u := Run(m, steps);
    if more == [] {
      assert steps + more == steps;
      SameReadTransitive(u, u, u);
    } else {
      var front, s := more[..|more| - 1], more[|more| - 1];
      var v := Run(m, steps + front);
      CheckerSteps(m, steps, front);
      assert (steps + front) + [s] == steps + more;
      OneCheckerStep(m, steps + front, s);
      SameReadTransitive(u, v, Run(m, steps + more));
    }
  }

  lemma ReadBegins(u: Mount, buf: seq<Byte>)
    requires Inv(u) && Enabled(u, BeginRead(buf))
    ensures var v := Do(u, BeginRead(buf));
      && v.newidx == 512 && v.urlidx == v.current == (if u.newidx < 512 then u.newidx else u.urlidx)
      && v.startidx == u.urlidx && v.reader.Begun? && v.handle == u.urlidx
      && (v.reader.reconnecting <==> u.newidx < 512)
  {
  }

  lemma FirstUrlIsSet(u: Mount)
    requires Inv(u) && u.reader.Begun? && (!u.reader.reconnecting ==> u.handle == u.current)
    ensures Enabled(u, SetFirstUrl) && Do(u, SetFirstUrl).handle == u.current && Do(u, SetFirstUrl).reader == Attempt
  {
  }

  lemma FirstUrlKeeps(u: Mount)
    requires Inv(u) && Enabled(u, SetFirstUrl)
    ensures var v := Do(u, SetFirstUrl); v.urlidx == u.urlidx && v.startidx == u.startidx
  {
  }

  lemma WishIsUsedUp(m: Mount, steps: seq<Step>, buf: seq<Byte>)
    requires Inv(m) && Enabled(Run(m, steps), BeginRead(buf))
    ensures Wanted(m, steps + [BeginRead(buf)]) == None
  {
    hide Inv, Enabled;
    assert (steps + [BeginRead(buf)])[..|steps|] == steps;
  }

  /** A read's first download, whatever the other thread does while it begins: it goes to the
      URL wanted since the last read, and that wish is used up; without one it goes to the URL
      that was current. */
  lemma ChangeIsTakenOnce(m: Mount, steps: seq<Step>, buf: seq<Byte>, between: seq<Step>)
    requires Started(m) && Enabled(Run(m, steps), BeginRead(buf))
    requires forall i :: 0 <= i < |between| ==> OfChecker(between[i])
    ensures var begun := steps + [BeginRead(buf)];
      && Run(m, begun).newidx == 512 && Wanted(m, begun) == None
      && Enabled(Run(m, begun + between), SetFirstUrl)
      && var v := Run(m, begun + between + [SetFirstUrl]);
      && v.reader == Attempt && v.startidx == Run(m, steps).urlidx
      && v.handle == v.urlidx == (match Wanted(m, steps) case Some(i) => i case None => Run(m, steps).urlidx)
      && (v.handle != v.startidx <==> Wanted(m, steps) != None && Wanted(m, steps) != Some(Run(m, steps).urlidx))
  {
    WantedIsKept(m, steps);
    hide Started, Inv, Do, Enabled, OfChecker, Run, Wanted;
    ReadBegins(Run(m, steps), buf);
    var begun := steps + [BeginRead(buf)];
    RunStep(m, steps, BeginRead(buf));
    WishIsUsedUp(m, steps, buf);
    CheckerSteps(m, begun, between);
    FirstUrlIsSet(Run(m, begun + between));
    RunStep(m, begun + between, SetFirstUrl);
    FirstUrlKeeps(Run(m, begun + between));
  }

  // ----- one read tries the URLs in turn -----

  /** The URL k places further on. */
  function After(i: nat, k: nat, n: nat): nat {
    if k == 0 then i else Next(After(i, k - 1, n), n)
  }

  lemma {:induction false} AfterIs(i: nat, k: nat, n: nat)
    requires i < n && k <= n
    ensures After(i, k, n) == if i + k < n then i + k else i + k - n
  {
    if k > 0 {
      AfterIs(i, k - 1, n);
    }
  }

  lemma {:induction false} AfterAdds(i: nat, j: nat, k: nat, n: nat)
    requires i < n
    ensures After(i, j + k, n) == After(After(i, j, n), k, n) && After(i, j, n) < n
    decreases j + k
  {
    if k > 0 {
      AfterAdds(i, j, k - 1, n);
    } else if j > 0 {
      AfterAdds(i, j - 1, 0, n);
    }
  }

  predicate OneRead(steps: seq<Step>) { forall i :: 0 <= i < |steps| ==> !steps[i].BeginRead? }

  /** k downloads of the read that began at URL first have ended. */
  ghost predicate Turn(u: Mount, first: nat, startidx: nat, n: nat, k: nat) {
    && u.n == n && u.startidx == startidx
    && (u.reader in {Attempt, Refused} ==> u.urlidx == After(first, k, n))
    && (u.reader == Failed ==> k >= 1 && u.urlidx == After(first, k - 1, n))
    && (u.reader.Chosen? ==> k >= 1 && u.urlidx == After(first, k, n)
                             && (u.reader.wrapped <==> After(first, k, n) == startidx))
    && !u.reader.Begun?
  }

  lemma AfterStep(i: nat, k: nat, n: nat)
    ensures k >= 1 ==> After(i, k, n) == Next(After(i, k - 1, n), n)
  {
  }

  lemma AdvanceGoesOn(u: Mount, first: nat, startidx: nat, n: nat, k: nat)
    requires Inv(u) && u.reader == Failed && Turn(u, first, startidx, n, k)
    ensures Turn(Do(u, AdvanceUrl), first, startidx, n, k)
  {
    hide After, Next;
    AfterStep(first, k, n);
    assert Do(u, AdvanceUrl).urlidx == Next(u.urlidx, u.n);
  }

  lemma TurnGoesOn(u: Mount, s: Step, first: nat, startidx: nat, n: nat, k: nat)
    requires Inv(u) && Enabled(u, s) && !s.BeginRead? && Turn(u, first, startidx, n, k)
    ensures Turn(Do(u, s), first, startidx, n, k + if s.PerformFails? || s.PerformOk? then 1 else 0)
    ensures s.PerformFails? || s.PerformOk? ==> u.handle == After(first, k, n)
  {
    hide After, Next, BeginSection;
    match s
    case AdvanceUrl => AdvanceGoesOn(u, first, startidx, n, k);
    case _ =>
  }

  lemma LastStep(m: Mount, steps: seq<Step>)
    requires Inv(m) && steps != []
    ensures var front, s := steps[..|steps| - 1], steps[|steps| - 1];
      var u := Run(m, front);
      && Run(m, steps) == (if Enabled(u, s) then Do(u, s) else u)
      && Tried(m, steps)
         == if Enabled(u, s) && (s.PerformFails? || s.PerformOk?) then Tried(m, front) + [u.handle] else Tried(m, front)
  {
    hide Inv, Do, Enabled;
  }

  ghost predicate GoesRound(tried: seq<nat>, first: nat, n: nat) {
    forall k :: 0 <= k < |tried| ==> tried[k] == After(first, k, n)
  }

  lemma OneMoreTried(tried: seq<nat>, first: nat, n: nat)
    requires GoesRound(tried, first, n)
    ensures GoesRound(tried + [After(first, |tried|, n)], first, n)
  {
    hide After;
  }

  lemma NoneTried(m: Mount)
    requires Inv(m) && m.reader == Attempt
    ensures Run(m, []) == m && Tried(m, []) == [] && GoesRound([], m.urlidx, m.n)
    ensures Turn(m, m.urlidx, m.startidx, m.n, 0)
  {
  }

  /** Within one read, however the checking thread interferes: the k-th download goes to the
      URL k places after the first. */
  lemma {:induction false} TriesGoRound(m: Mount, steps: seq<Step>)
    requires Inv(m) && m.reader == Attempt && OneRead(steps)
    ensures GoesRound(Tried(m, steps), m.urlidx, m.n)
    ensures Turn(Run(m, steps), m.urlidx, m.startidx, m.n, |Tried(m, steps)|)
  {
    hide After, Turn, Inv, Do, Enabled, Run, Tried, GoesRound;
    if steps == [] {
      NoneTried(m);
    } else {
      var front, s := steps[..|steps| - 1], steps[|steps| - 1];
      assert forall i :: 0 <= i < |front| ==> front[i] == steps[i];
      TriesGoRound(m, front);
      LastStep(m, steps);
      if Enabled(Run(m, front), s) {
        TurnGoesOn(Run(m, front), s, m.urlidx, m.startidx, m.n, |Tried(m, front)|);
        OneMoreTried(Tried(m, front), m.urlidx, m.n);
      }
    }
  }

  lemma InBounds(m: Mount)
    requires Inv(m)
    ensures m.urlidx < m.n
  {
  }

  /** Any n downloads of one read that follow each other try every URL exactly once. */
  lemma EachUrlOnce(m: Mount, steps: seq<Step>, a: nat, i: nat) returns (k: nat)
    requires Inv(m) && m.reader == Attempt && OneRead(steps) && a + m.n <= |Tried(m, steps)| && i < m.n
    ensures a <= k < a + m.n && Tried(m, steps)[k] == i
    ensures forall j :: a <= j < a + m.n && Tried(m, steps)[j] == i ==> j == k
  {
    hide Inv, Run, Tried;
    TriesGoRound(m, steps);
    assert m.urlidx < m.n by { InBounds(m); }
    AfterAdds(m.urlidx, a, 0, m.n);
    var b := After(m.urlidx, a, m.n);
    hide After;
    k := a + if i >= b then i - b else i + m.n - b;
    forall j | a <= j < a + m.n
      ensures Tried(m, steps)[j] == if b + (j - a) < m.n then b + (j - a) else b + (j - a) - m.n
    {
      AfterAdds(m.urlidx, a, j - a, m.n);
      AfterIs(b, j - a, m.n);
    }
  }

  /** The first time the message comes: after all n URLs have failed when the read kept its
      URL, and too early, before some URL was tried, when it took a wanted change. */
  lemma AllDownIsReported(m: Mount, steps: seq<Step>)
    requires Inv(m) && m.reader == Attempt && OneRead(steps)
    requires Run(m, steps).reader.Chosen? && |Tried(m, steps)| <= m.n
    ensures Run(m, steps).reader.wrapped
       <==> |Tried(m, steps)| == if m.startidx > m.urlidx then m.startidx - m.urlidx else m.startidx + m.n - m.urlidx
    ensures Run(m, steps).reader.wrapped ==> (|Tried(m, steps)| == m.n <==> m.startidx == m.urlidx)
  {
    TriesGoRound(m, steps);
    AfterIs(m.urlidx, |Tried(m, steps)|, m.n);
  }

  /** Two URLs, the second in use. The first is found to work again, and the next read takes
      it; when the first fails, the message comes, and the second has not been tried. */
  function EarlySteps(): seq<Step> {
    [Snapshot, Probe(true), Store, BeginRead([0]), SetFirstUrl, PerformFails, AdvanceUrl]
  }

  predicate Buffered(m: Mount) { m.completed <= m.total == |m.response| }

  /** The other thread's three steps. */
  lemma PreferredIsFound(m: Mount)
    requires Started(m) && m.n == 2 && m.urlidx == 1
    ensures Enabled(m, Snapshot) && Buffered(m)
    ensures var u1 := Do(m, Snapshot);
      && Buffered(u1) && Enabled(u1, Probe(true))
      && var u2 := Do(u1, Probe(true));
      && Buffered(u2) && Enabled(u2, Store)
      && var u3 := Do(u2, Store);
      && Buffered(u3) && u3.n == 2 && u3.urlidx == 1 && u3.newidx == 0 && u3.reader == Idle
  {
    hide BeginSection;
  }

  /** The read's four. */
  lemma FirstUrlFails(u: Mount)
    requires Buffered(u) && u.n == 2 && u.urlidx == 1 && u.newidx == 0 && u.reader == Idle
    ensures Enabled(u, BeginRead([0]))
    ensures var u1 := Do(u, BeginRead([0]));
      && Buffered(u1) && Enabled(u1, SetFirstUrl)
      && var u2 := Do(u1, SetFirstUrl);
      && Buffered(u2) && Enabled(u2, PerformFails) && u2.handle == 0
      && var u3 := Do(u2, PerformFails);
      && Buffered(u3) && Enabled(u3, AdvanceUrl)
      && Do(u3, AdvanceUrl).reader == Chosen(true)
  {
  }

  lemma RunFound(m: Mount)
    requires Started(m) && m.n == 2 && m.urlidx == 1
    ensures Inv(m)
    ensures var u := Run(m, [Snapshot, Probe(true), Store]);
      Buffered(u) && u.n == 2 && u.urlidx == 1 && u.newidx == 0 && u.reader == Idle
    ensures Tried(m, [Snapshot, Probe(true), Store]) == []
  {
    PreferredIsFound(m);
    var s0: seq<Step> := [];
    assert Inv(m) && Run(m, s0) == m && Tried(m, s0) == [];
    hide Run, Tried, Inv, Do, Enabled, Started;
    RunStep(m, s0, Snapshot);
    assert s0 + [Snapshot] == [Snapshot];
    RunStep(m, [Snapshot], Probe(true));
    assert [Snapshot] + [Probe(true)] == [Snapshot, Probe(true)];
    RunStep(m, [Snapshot, Probe(true)], Store);
    assert [Snapshot, Probe(true)] + [Store] == [Snapshot, Probe(true), Store];
  }

  lemma ReportedTooEarly(m: Mount)
    requires Started(m) && m.n == 2 && m.urlidx == 1
    ensures Inv(m) && Run(m, EarlySteps()).reader == Chosen(true) && Tried(m, EarlySteps()) == [0]
  {
    RunFound(m);
    hide Run, Tried, Inv, Do, Enabled, Started;
    var s3 := [Snapshot, Probe(true), Store];
    FirstUrlFails(Run(m, s3));
    RunStep(m, s3, BeginRead([0]));
    var s4 := s3 + [BeginRead([0])];
    RunStep(m, s4, SetFirstUrl);
    var s5 := s4 + [SetFirstUrl];
    RunStep(m, s5, PerformFails);
    var s6 := s5 + [PerformFails];
    RunStep(m, s6, AdvanceUrl);
    assert s6 + [AdvanceUrl] == EarlySteps();
  }

  function LateBeginning(): seq<Step> { [BeginRead([0]), SetFirstUrl, Snapshot, Probe(true), PerformFails] }

  /** The URL wanted can be the one the reading thread has come to by itself: the checker finds
      the first of two URLs while the second is being read, and stores it when that has failed
      and the first is in use. */
  function LateSteps(): seq<Step> {
    LateBeginning() + [AdvanceUrl, Store, SetNextUrl, PerformOk]
  }

  lemma LateBegins(m: Mount)
    requires Started(m) && m.n == 2 && m.urlidx == 1
    ensures Inv(m) && Enabled(m, BeginRead([0]))
    ensures var u1 := Do(m, BeginRead([0]));
      && Buffered(u1) && Enabled(u1, SetFirstUrl)
      && var u2 := Do(u1, SetFirstUrl);
      && Buffered(u2) && Enabled(u2, Snapshot)
      && var u3 := Do(u2, Snapshot);
      && Buffered(u3) && Enabled(u3, Probe(true))
      && var u4 := Do(u3, Probe(true));
      && Buffered(u4) && Enabled(u4, PerformFails)
      && var u := Do(u4, PerformFails);
      && Buffered(u) && u.n == 2 && u.urlidx == 1 && u.reader == Failed && u.rechecker == Found(1, 512, 0)
  {
  }

  lemma LateEnds(u: Mount)
    requires Buffered(u) && u.n == 2 && u.urlidx == 1 && u.reader == Failed && u.rechecker == Found(1, 512, 0)
    ensures Enabled(u, AdvanceUrl)
    ensures var u1 := Do(u, AdvanceUrl);
      && Buffered(u1) && Enabled(u1, Store)
      && var u2 := Do(u1, Store);
      && Buffered(u2) && Enabled(u2, SetNextUrl)
      && var u3 := Do(u2, SetNextUrl);
      && Buffered(u3) && Enabled(u3, PerformOk)
      && var v := Do(u3, PerformOk);
      && v.urlidx == 0 && v.newidx == 0 && v.reader == Idle
  {
  }

  lemma LateFails(m: Mount)
    requires Started(m) && m.n == 2 && m.urlidx == 1
    ensures Inv(m)
    ensures var u := Run(m, LateBeginning());
      Buffered(u) && u.n == 2 && u.urlidx == 1 && u.reader == Failed && u.rechecker == Found(1, 512, 0)
  {
    LateBegins(m);
    var s0: seq<Step> := [];
    assert Run(m, s0) == m;
    hide Run, Tried, Inv, Do, Enabled, Started, Buffered;
    RunStep(m, s0, BeginRead([0]));
    var s1 := s0 + [BeginRead([0])];
    RunStep(m, s1, SetFirstUrl);
    var s2 := s1 + [SetFirstUrl];
    RunStep(m, s2, Snapshot);
    var s3 := s2 + [Snapshot];
    RunStep(m, s3, Probe(true));
    var s4 := s3 + [Probe(true)];
    RunStep(m, s4, PerformFails);
    assert s4 + [PerformFails] == LateBeginning();
  }

  lemma LateState(m: Mount)
    requires Started(m) && m.n == 2 && m.urlidx == 1
    ensures Inv(m)
    ensures var v := Run(m, LateSteps()); v.urlidx == 0 && v.newidx == 0 && v.reader == Idle
  {
    LateFails(m);
    hide Run, Tried, Inv, Do, Enabled, Started, Buffered;
    var s5 := LateBeginning();
    LateEnds(Run(m, s5));
    RunStep(m, s5, AdvanceUrl);
    var s6 := s5 + [AdvanceUrl];
    RunStep(m, s6, Store);
    var s7 := s6 + [Store];
    RunStep(m, s7, SetNextUrl);
    var s8 := s7 + [SetNextUrl];
    RunStep(m, s8, PerformOk);
    assert s8 + [PerformOk] == LateSteps();
  }

  lemma WishCanBeCurrent(m: Mount)
    requires Started(m) && m.n == 2 && m.urlidx == 1
    ensures Inv(m) && Wanted(m, LateSteps()) == Some(Run(m, LateSteps()).urlidx)
    ensures Run(m, LateSteps()).reader == Idle
  {
    LateState(m);
    hide Run, Wanted, Do, Enabled, LateSteps;
    WantedIsKept(m, LateSteps());
  }

  // ----- the buffer -----

  /** The chunks taken since the last download began. */
  ghost function Taken(m: Mount, steps: seq<Step>): seq<Byte>
    requires Inv(m)
  {
    if steps == [] then m.response[..m.completed]
    else
      var front, s := steps[..|steps| - 1], steps[|steps| - 1];
      var u := Run(m, front);
      if !Enabled(u, s) then Taken(m, front)
      else if s.BeginRead? || s.PerformFails? then []
      else if s.Chunk? && u.completed + |s.data| <= u.total then Taken(m, front) + s.data
      else Taken(m, front)
  }

  lemma ChunkAdded(u: Mount, data: seq<Byte>)
    requires u.completed + |data| <= u.total == |u.response| && u.reader == Attempt
    ensures var v := Do(u, Chunk(data));
      v.response[..v.completed] == u.response[..u.completed] + data
  {
  }

  lemma StepFillsBuffer(u: Mount, s: Step)
    requires Inv(u) && Enabled(u, s)
    ensures var v, had := Do(u, s), u.response[..u.completed];
      v.completed <= |v.response| && v.response[..v.completed]
        == if s.BeginRead? || s.PerformFails? then []
           else if s.Chunk? && u.completed + |s.data| <= u.total then had + s.data
           else had
  {
    if s.Chunk? && u.completed + |s.data| <= u.total {
      ChunkAdded(u, s.data);
    }
  }

  /** What the buffer holds comes from the current download alone, all of it and in order. */
  lemma {:induction false} BufferHoldsOneDownload(m: Mount, steps: seq<Step>)
    requires Inv(m)
    ensures var u := Run(m, steps); u.completed <= |u.response| && u.response[..u.completed] == Taken(m, steps)
  {
    if steps != [] {
      var front, s := steps[..|steps| - 1], steps[|steps| - 1];
      var u := Run(m, front);
      BufferHoldsOneDownload(m, front);
      hide Do, Inv, Enabled;
      if Enabled(u, s) {
        StepFillsBuffer(u, s);
      }
    }
  }
}
