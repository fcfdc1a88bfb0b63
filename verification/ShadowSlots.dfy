/**
 What callers of the shadow memory see, said by the actions of a run alone: which calls have returned, for which
 addresses and with which slots, and what the slots hold.
 */
module ShadowSlots {
  import opened Bits
  import opened ShadowAddress
  import opened ShadowMemory

  // ---- the calls of a run ----

  /** The address of the last call of the thread. */
  function LastCall(actions: seq<Action>, t: nat): nat {
    if actions == [] then 0
    else
      var a := actions[|actions| - 1];
      if a.Call? && a.thread == t then a.address else LastCall(actions[..|actions| - 1], t)
  }

  /** With this action the running call of the thread returns. */
  predicate Returns(st: State, a: Action)
    requires Enabled(st, a)
  {
    a.Step? && Apply(st, a).threads[a.thread].pc.Idle?
  }

  /** The page that the table has for an address. */
  function PageOf(st: State, address: nat): Ptr
    requires st.geometry.Representable()
  {
    Lookup(st, st.geometry.L1Index(address), st.geometry.L2Index(address))
  }

  /** The calls that have returned, in order, with the addresses of their call actions. */
  ghost function Returned(states: seq<State>, actions: seq<Action>): seq<Answer>
    requires IsRun(states, actions)
    decreases |actions|
  {
    var n := |actions|;
    if n == 0 then []
    else
      var st, a := states[n - 1], actions[n - 1];
      GeometryIsValid(states, actions, n - 1);
      Returned(states[..n], actions[..n - 1]) +
        if Returns(st, a) then
          var address := LastCall(actions[..n - 1], a.thread);
          [Answer(a.thread, address, PageOf(st, address))]
        else []
  }

  lemma GeometryIsValid(states: seq<State>, actions: seq<Action>, i: nat)
    requires IsRun(states, actions) && i < |states|
    ensures states[i].geometry.Valid()
  {
    RunInv(states, actions, i);
  }

  /** A running call is for the address of its call action. */
  lemma {:induction false} RunningAddress(states: seq<State>, actions: seq<Action>, t: nat)
    requires IsRun(states, actions) && t < |states[|actions|].threads|
    requires !states[|actions|].threads[t].pc.Idle?
    ensures states[|actions|].threads[t].address == LastCall(actions, t)
    decreases |actions|
  {
    hide Apply, Enabled;
    var n := |actions|;
    if n > 0 {
      var st, a := states[n - 1], actions[n - 1];
      ThreadCount(st, a);
      if a.Call? && a.thread == t {
        CallAddress(st, a);
      } else {
        StepAddress(st, a, t);
        RunningAddress(states[..n], actions[..n - 1], t);
        assert states[..n][|actions[..n - 1]|] == st;
      }
    }
  }

  lemma CallAddress(st: State, a: Action)
    requires Enabled(st, a) && a.Call?
    ensures a.thread < |Apply(st, a).threads| && Apply(st, a).threads[a.thread].address == a.address
  {
  }

  lemma ThreadCount(st: State, a: Action)
    requires Enabled(st, a)
    ensures |Apply(st, a).threads| == |st.threads|
  {
  }

  lemma StepAddress(st: State, a: Action, t: nat)
    requires Enabled(st, a) && t < |st.threads| && !(a.Call? && a.thread == t)
    requires !Apply(st, a).threads[t].pc.Idle?
    ensures !st.threads[t].pc.Idle? && Apply(st, a).threads[t].address == st.threads[t].address
  {
    hide Apply, Advance;
    if a == Step(t) {
      OwnAddress(st, t);
    } else {
      ThreadStays(st, a, t);
    }
  }

  lemma OwnAddress(st: State, t: nat)
    requires Enabled(st, Step(t))
    ensures |Apply(st, Step(t)).threads| == |st.threads|
    ensures Apply(st, Step(t)).threads[t].address == st.threads[t].address
    ensures Apply(st, Step(t)).threads[t].pc.Idle? <==> st.threads[t].pc.Fetch?
  {
  }

  lemma AnswersGrow(st: State, a: Action)
    requires Inv(st) && Enabled(st, a)
    ensures Apply(st, a).answers == st.answers +
      if Returns(st, a) then
        var address := st.threads[a.thread].address;
        [Answer(a.thread, address, PageOf(st, address))]
      else []
    ensures Returns(st, a) ==> !st.threads[a.thread].pc.Idle?
  {
    hide Inv, Apply;
    if a.Step? {
      OwnAddress(st, a.thread);
      if st.threads[a.thread].pc.Fetch? {
        FetchAnswers(st, a.thread);
      } else {
        OtherAnswers(st, a);
      }
    } else {
      OtherAnswers(st, a);
    }
  }

  lemma FetchAnswers(st: State, t: nat)
    requires Inv(st) && Enabled(st, Step(t)) && st.threads[t].pc.Fetch?
    ensures Apply(st, Step(t)).answers ==
      st.answers + [Answer(t, st.threads[t].address, PageOf(st, st.threads[t].address))]
  {
    assert ThreadOk(st, st.threads[t]);
    hide SparesAreZero, ShadowOwned, L1Owned, AnswersOk;
  }

  lemma OtherAnswers(st: State, a: Action)
    requires Enabled(st, a) && !(a.Step? && st.threads[a.thread].pc.Fetch?)
    ensures Apply(st, a).answers == st.answers
  {
  }

  /** The answers are the calls that have returned, each with the address it was made for and the page in the table. */
  lemma {:induction false} AnswersAreCalls(states: seq<State>, actions: seq<Action>)
    requires IsRun(states, actions)
    ensures states[|actions|].answers == Returned(states, actions)
    decreases |actions|
  {
    var n := |actions|;
    if n > 0 {
      AnswersAreCalls(states[..n], actions[..n - 1]);
      RunInv(states, actions, n - 1);
      hide Inv;
      AnswersGrow(states[n - 1], actions[n - 1]);
      if Returns(states[n - 1], actions[n - 1]) {
        RunningAddress(states[..n], actions[..n - 1], actions[n - 1].thread);
      }
    }
  }

  /** Over the whole run, whoever calls and whenever: two calls get the same slot exactly if the addresses they were
      made for agree on the bits [granularity shift, 48). */
  lemma SlotsAreExact(states: seq<State>, actions: seq<Action>, n: nat, m: nat)
    requires IsRun(states, actions) && n < |Returned(states, actions)| && m < |Returned(states, actions)|
    ensures states[|actions|].geometry.Valid()
    ensures var g, x, y := states[|actions|].geometry, Returned(states, actions)[n], Returned(states, actions)[m];
      && x.page.At?
      && (x.page == y.page && g.PageIndex(x.address) == g.PageIndex(y.address) <==>
          AgreeOn(x.address, y.address, g.OffsetShift(), 48))
  {
    AnswersAreCalls(states, actions);
    AnswersAreExact(states, actions, |actions|, n, m);
  }

  /** No thread is kept from what it may do: an idle one from a call for any address, a calling one from its next step;
      and any slot that a call has returned can be written. */
  lemma NothingIsRefused(states: seq<State>, actions: seq<Action>, i: nat, t: nat, address: nat, value: int)
    requires IsRun(states, actions) && i < |states|
    ensures t < |states[i].threads| ==>
      if states[i].threads[t].pc.Idle? then Enabled(states[i], Call(t, address)) else Enabled(states[i], Step(t))
    ensures t < |states[i].answers| ==> Enabled(states[i], Write(t, value))
  {
    RunInv(states, actions, i);
    if t < |states[i].threads| {
      EveryStepIsSafe(states, actions, i, t);
    }
    if t < |states[i].answers| {
      AnswerIsPage(states[i], t);
      PageIsThere(states[i], states[i].answers[t].address);
    }
    hide Inv, IsRun, Safe;
  }

  // ---- the slots are a memory ----

  /** What was last written to the slot of an address, by the writes of the run: a write goes to the slot that some call
      has returned. */
  ghost function LastWritten(states: seq<State>, actions: seq<Action>, address: nat): int
    requires IsRun(states, actions)
    decreases |actions|
  {
    var n := |actions|;
    if n == 0 then 0
    else
      var st, a := states[n - 1], actions[n - 1];
      var returned := Returned(states[..n], actions[..n - 1]);
      GeometryIsValid(states, actions, n - 1);
      AnswersAreCalls(states[..n], actions[..n - 1]);
      if a.Write? && AgreeOn(returned[a.answer].address, address, st.geometry.OffsetShift(), 48) then a.value
      else LastWritten(states[..n], actions[..n - 1], address)
  }

  /** What the table has in the slot of an address; a page that is not there stands for zeros. */
  function Content(st: State, address: nat): int
    requires st.geometry.Representable()
  {
    var page := PageOf(st, address);
    if page.At? && page.id < |st.shadowPages| && st.geometry.PageIndex(address) < |st.shadowPages[page.id]|
    then st.shadowPages[page.id][st.geometry.PageIndex(address)] else 0
  }

  /** The page an address has got is there, and has its slot. */
  lemma PageIsThere(st: State, address: nat)
    requires Inv(st)
    ensures PageOf(st, address).At? ==>
      && PageOf(st, address).id < |st.shadowPages|
      && st.geometry.PageIndex(address) < |st.shadowPages[PageOf(st, address).id]|
  {
    var i, j := st.geometry.L1Index(address), st.geometry.L2Index(address);
    IndicesAreFields(st.geometry, address);
    if PageOf(st, address).At? {
      assert ShadowHeld(st, Entry(st.table[i].id, j)) == PageOf(st, address);
      assert ShadowOwned(st);
      OwnedAt(p => ShadowHeld(st, p), st.shadowOwner, Entry(st.table[i].id, j));
    }
  }

  lemma WriteContent(st: State, n: nat, value: int, address: nat)
    requires Inv(st) && Enabled(st, Write(n, value))
    ensures Content(Apply(st, Write(n, value)), address) ==
      if AgreeOn(st.answers[n].address, address, st.geometry.OffsetShift(), 48) then value else Content(st, address)
  {
    var g, x := st.geometry, st.answers[n];
    AnswerIsPage(st, n);
    PageIsThere(st, address);
    SameSlotExactly(g, x.address, address);
    SlotOfPage(st, x.address, address);
    hide Inv, AgreeOn;
  }

  lemma AnswerIsPage(st: State, n: nat)
    requires Inv(st) && n < |st.answers|
    ensures st.answers[n].page.At? && PageOf(st, st.answers[n].address) == st.answers[n].page
  {
  }

  /** Two addresses have one page exactly if they agree on both table indices. */
  lemma SlotOfPage(st: State, a: nat, b: nat)
    requires Inv(st) && PageOf(st, a).At?
    ensures PageOf(st, b) == PageOf(st, a) <==>
      st.geometry.L1Index(a) == st.geometry.L1Index(b) && st.geometry.L2Index(a) == st.geometry.L2Index(b)
  {
    var g := st.geometry;
    var i, j := g.L1Index(a), g.L1Index(b);
    IndicesAreFields(g, a);
    IndicesAreFields(g, b);
    if PageOf(st, b) == PageOf(st, a) {
      assert ShadowOwned(st) && L1Owned(st);
      OwnedAt(p => ShadowHeld(st, p), st.shadowOwner, Entry(st.table[i].id, g.L2Index(a)));
      OwnedAt(p => ShadowHeld(st, p), st.shadowOwner, Entry(st.table[j].id, g.L2Index(b)));
      OwnedAt(p => L1Held(st, p), st.l1Owner, Root(i));
      OwnedAt(p => L1Held(st, p), st.l1Owner, Root(j));
    }
  }

  /** Calls and their steps change no content. */
  lemma StepContent(st: State, a: Action, address: nat)
    requires Inv(st) && Enabled(st, a) && !a.Write?
    ensures Content(Apply(st, a), address) == Content(st, address)
  {
    var st' := Apply(st, a);
    PageIsThere(st, address);
    StepGrows(st, a);
    StepPages(st, a);
    if !PageOf(st, address).At? {
      NewPage(st, a, address);
    }
    hide Inv, Apply, Enabled;
  }

  lemma StepPages(st: State, a: Action)
    requires Enabled(st, a) && !a.Write?
    ensures st.shadowPages <= Apply(st, a).shadowPages && Apply(st, a).geometry == st.geometry
  {
  }

  /** A page that comes into the table is zero. */
  lemma NewPage(st: State, a: Action, address: nat)
    requires Inv(st) && Enabled(st, a) && !a.Write? && !PageOf(st, address).At?
    ensures var st' := Apply(st, a);
      st'.geometry == st.geometry && Content(st', address) == 0
  {
    hide Inv, Advance, PageOf;
    SameGeometry(st, a);
    if a.Step? && st.threads[a.thread].pc.Cas2? {
      NewEntry(st, a.thread, address);
    } else if a.Step? && st.threads[a.thread].pc.Cas1? {
      NewTable(st, a.thread, address);
    } else {
      SameTables(st, a, address);
    }
  }

  lemma SameGeometry(st: State, a: Action)
    requires Enabled(st, a)
    ensures Apply(st, a).geometry == st.geometry
  {
  }

  lemma NewEntry(st: State, t: nat, address: nat)
    requires Inv(st) && Enabled(st, Step(t)) && st.threads[t].pc.Cas2? && !PageOf(st, address).At?
    ensures Content(Advance(st, t), address) == 0
  {
    var th := st.threads[t];
    var i, j := st.geometry.L1Index(address), st.geometry.L2Index(address);
    IndicesAreFields(st.geometry, address);
    assert ShadowOwned(st) && SparesAreZero(st);
    OwnedAt(p => ShadowHeld(st, p), st.shadowOwner, Flight(t));
    assert st.shadowOwner[th.spare] == Flight(t);
    hide Inv, SparesAreZero, ShadowOwned;
    assert PageOf(Advance(st, t), address).At? ==> PageOf(Advance(st, t), address) == At(th.spare);
    SpareIsZero(st, th.spare);
  }

  lemma SpareIsZero(st: State, s: nat)
    requires SparesAreZero(st) && s < |st.shadowOwner| && !st.shadowOwner[s].Entry?
    ensures s < |st.shadowPages| ==> forall k :: 0 <= k < |st.shadowPages[s]| ==> st.shadowPages[s][k] == 0
  {
  }

  lemma NewTable(st: State, t: nat, address: nat)
    requires Inv(st) && Enabled(st, Step(t)) && st.threads[t].pc.Cas1? && !PageOf(st, address).At?
    ensures Content(Advance(st, t), address) == 0
  {
    var th := st.threads[t];
    IndicesAreFields(st.geometry, address);
    assert L1Owned(st) && SparesAreZero(st);
    OwnedAt(p => L1Held(st, p), st.l1Owner, Flight(t));
    assert st.l1Owner[th.spare] == Flight(t);
    assert !PageOf(Advance(st, t), address).At?;
    hide Inv;
  }

  lemma SameTables(st: State, a: Action, address: nat)
    requires Inv(st) && Enabled(st, a) && !a.Write? && !PageOf(st, address).At?
    requires !(a.Step? && (st.threads[a.thread].pc.Cas1? || st.threads[a.thread].pc.Cas2?))
    ensures Apply(st, a).geometry == st.geometry && !PageOf(Apply(st, a), address).At?
  {
    var i := st.geometry.L1Index(address);
    IndicesAreFields(st.geometry, address);
    assert L1Owned(st);
    if st.table[i].At? { OwnedAt(p => L1Held(st, p), st.l1Owner, Root(i)); }
    hide Inv;
  }

  /** At any moment the slot of any address holds what was last written to it, by whatever thread and through whatever
      call, and zero if nothing was: installing pages loses and invents nothing. */
  lemma {:induction false} SlotsAreMemory(states: seq<State>, actions: seq<Action>, address: nat)
    requires IsRun(states, actions)
    ensures states[|actions|].geometry.Valid()
    ensures Content(states[|actions|], address) == LastWritten(states, actions, address)
    decreases |actions|
  {
    var n := |actions|;
    GeometryIsValid(states, actions, n);
    if n > 0 {
      var st, a := states[n - 1], actions[n - 1];
      SlotsAreMemory(states[..n], actions[..n - 1], address);
      RunInv(states, actions, n - 1);
      hide Inv, Content, AgreeOn, Apply;
      assert Enabled(st, a) && states[n] == Apply(st, a);
      AnswersAreCalls(states[..n], actions[..n - 1]);
      if a.Write? {
        WriteContent(st, a.answer, a.value, address);
      } else {
        StepContent(st, a, address);
      }
    }
  }
}
