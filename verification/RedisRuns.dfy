/** Putting runs of `RedisProtocol` together, and the last phase of a call on its own:
    answering the charged slots of any state. */
module RedisRuns {
  import opened Prelude
  import opened Limiter
  import opened RedisProtocol

  ghost predicate Leads(t: State, e: Event, u: State) { Enabled(t, e) && Apply(t, e) == u }

  ghost predicate Runs(t: State, es: seq<Event>, u: State) { Valid(t, es) && Run(t, es) == u }

  /** States that follow each other make a run. */
  lemma {:induction false} Chain(states: seq<State>, es: seq<Event>)
    requires |states| == |es| + 1
    requires forall k | 0 <= k < |es| :: Leads(states[k], es[k], states[k + 1])
    ensures Runs(states[0], es, states[|es|])
    decreases |es|
  {
    if es != [] {
      assert forall k | 0 <= k < |es| - 1 :: es[1..][k] == es[k + 1] && states[1..][k] == states[k + 1];
      Chain(states[1..], es[1..]);
    }
  }

  lemma {:induction false} RunConcat(t: State, a: seq<Event>, u: State, b: seq<Event>, v: State)
    requires Runs(t, a, u) && Runs(u, b, v)
    ensures Runs(t, a + b, v)
    decreases |a|
  {
    if a == [] {
      assert a + b == b;
    } else {
      assert (a + b)[1..] == a[1..] + b;
      RunConcat(Apply(t, a[0]), a[1..], u, b, v);
    }
  }

  // ------------------------------------------------------------ answering slots

  function Answers(first: nat, n: nat): (r: seq<Event>)
    ensures |r| == n
  {
    seq(n, k requires 0 <= k < n => Answer(first + k))
  }

  function JudgedSlot(x: Slot): Slot { x.(stage := Judged(VerdictOf(x))) }

  /** The cache entry that the answer to a slot makes. */
  function EntryOf(x: Slot): set<(nat, string)> {
    if VerdictOf(x).caches && x.call.cached then {(x.call.instance, x.key)} else {}
  }

  function EntriesOf(slots: seq<Slot>): set<(nat, string)> {
    if slots == [] then {} else EntriesOf(slots[..|slots| - 1]) + EntryOf(slots[|slots| - 1])
  }

  function AllJudged(slots: seq<Slot>): (r: seq<Slot>)
    ensures |r| == |slots|
  {
    seq(|slots|, i requires 0 <= i < |slots| => JudgedSlot(slots[i]))
  }

  /** A state whose slots are some others, then the `done` ones judged, then `rest`. */
  function Answered(t: State, others: seq<Slot>, done: seq<Slot>, rest: seq<Slot>): State {
    t.(caches := t.caches + EntriesOf(done), slots := others + AllJudged(done) + rest)
  }

  /** Slots of one call that are ready to be answered, and all of that call. */
  ghost predicate ReadyToAnswer(others: seq<Slot>, own: seq<Slot>, id: nat) {
    && (forall x | x in others :: x.call.id != id)
    && (forall x | x in own :: x.call.id == id && x.stage == Charged)
  }

  lemma AllReached(t: State, others: seq<Slot>, done: seq<Slot>, rest: seq<Slot>, id: nat)
    requires ReadyToAnswer(others, done + rest, id)
    ensures Reached(Answered(t, others, done, rest), id, 3)
  {
    var slots := Answered(t, others, done, rest).slots;
    assert forall j | 0 <= j < |others| :: slots[j] == others[j] && others[j] in others;
    forall j | |others| <= j < |slots| ensures Rank(slots[j].stage) >= 3 {
      if j < |others| + |done| {
        assert slots[j] == JudgedSlot(done[j - |others|]);
      } else {
        assert slots[j] == (done + rest)[j - |others|];
      }
    }
  }

  lemma AnswerLeads(t: State, j: nat, x: Slot)
    requires j < |t.slots| && t.slots[j] == x && x.stage == Charged && Reached(t, x.call.id, 3)
    ensures Leads(t, Answer(j), t.(caches := t.caches + EntryOf(x), slots := t.slots[j := JudgedSlot(x)]))
  {
  }

  lemma AnswerStep(t: State, others: seq<Slot>, done: seq<Slot>, x: Slot, rest: seq<Slot>, id: nat)
    requires ReadyToAnswer(others, done + [x] + rest, id)
    ensures Leads(Answered(t, others, done, [x] + rest), Answer(|others| + |done|),
                  Answered(t, others, done + [x], rest))
  {
    var u, v, j := Answered(t, others, done, [x] + rest), Answered(t, others, done + [x], rest), |others| + |done|;
    assert done + ([x] + rest) == done + [x] + rest;
    AllReached(t, others, done, [x] + rest, id);
    assert x in done + [x] + rest;
    AnswerLeads(u, j, x);
    assert (done + [x])[..|done|] == done;
    assert AllJudged(done + [x]) == AllJudged(done) + [JudgedSlot(x)];
    assert u.slots[j := JudgedSlot(x)] == v.slots;
  }

  lemma OneMoreAnswer(t: State, first: nat, k: nat, u: State, v: State)
    requires Runs(t, Answers(first, k), u) && Leads(u, Answer(first + k), v)
    ensures Runs(t, Answers(first, k + 1), v)
  {
    Chain([u, v], [Answer(first + k)]);
    RunConcat(t, Answers(first, k), u, [Answer(first + k)], v);
    assert Answers(first, k + 1) == Answers(first, k) + [Answer(first + k)];
  }

  ghost function AnsweredUpTo(t: State, others: seq<Slot>, own: seq<Slot>, k: nat): State
    requires k <= |own|
  {
    Answered(t, others, own[..k], own[k..])
  }

  lemma NothingAnswered(t: State, others: seq<Slot>, own: seq<Slot>)
    requires t.slots == others + own
    ensures Runs(t, Answers(|others|, 0), AnsweredUpTo(t, others, own, 0))
  {
    assert AllJudged(own[..0]) == [];
    assert others + [] + own[0..] == others + own;
  }

  lemma NextAnswered(t: State, others: seq<Slot>, own: seq<Slot>, id: nat, k: nat)
    requires ReadyToAnswer(others, own, id) && k < |own|
    ensures Leads(AnsweredUpTo(t, others, own, k), Answer(|others| + k), AnsweredUpTo(t, others, own, k + 1))
  {
    var done, x, rest := own[..k], own[k], own[k + 1..];
    assert own[k..] == [x] + rest && own[..k + 1] == done + [x] && done + [x] + rest == own;
    AnswerStep(t, others, done, x, rest, id);
  }

  /** Answering the first `k` slots of a call. */
  lemma {:induction false} AnswersRun(t: State, others: seq<Slot>, own: seq<Slot>, id: nat, k: nat)
    requires t.slots == others + own && ReadyToAnswer(others, own, id) && k <= |own|
    ensures Runs(t, Answers(|others|, k), AnsweredUpTo(t, others, own, k))
  {
    if k == 0 {
      NothingAnswered(t, others, own);
    } else {
      AnswersRun(t, others, own, id, k - 1);
      NextAnswered(t, others, own, id, k - 1);
      OneMoreAnswer(t, |others|, k - 1, AnsweredUpTo(t, others, own, k - 1), AnsweredUpTo(t, others, own, k));
    }
  }

  /** Answering all slots of a call. */
  lemma AllAnswersRun(t: State, others: seq<Slot>, own: seq<Slot>, id: nat)
    requires t.slots == others + own && ReadyToAnswer(others, own, id)
    ensures Runs(t, Answers(|others|, |own|),
                 t.(caches := t.caches + EntriesOf(own), slots := others + AllJudged(own)))
  {
    AnswersRun(t, others, own, id, |own|);
    assert own[..|own|] == own && own[|own|..] == [];
    assert others + AllJudged(own) + [] == others + AllJudged(own);
  }
}
