/**
 The edge's walk in the abstract: a request meets a list of stages. A stage that applies and has a budget
 is counted when it is reached; the first stage that fires decides.
 */
module Stages {
  import opened Wrappers
  import opened Ruleset
  import opened Limiter

  datatype Stage = Stage(applies: bool, budget: Option<RateLimit>, key: string) {
    predicate Spends() {
      applies && budget.Some?
    }

    function Window(): int
      requires budget.Some?
    {
      budget.value.windowSeconds * SECOND
    }

    /** It applies and its budget, if it has one, is exceeded by this request. */
    predicate Fires(t: Table, now: int) {
      applies && (budget.Some? ==> Over(t, key, budget.value.threshold, Window(), now))
    }

    function Spent(t: Table, now: int): Table {
      if Spends() then Checked(t, key, Window(), now) else t
    }
  }

  /** The stages from `s` on: the one that decides (their number when none does), and the table afterwards. */
  function DecideFrom(stages: seq<Stage>, t: Table, now: int, s: nat): (r: (nat, Table))
    requires s <= |stages|
    ensures s <= r.0 <= |stages|
    decreases |stages| - s
  {
    if s == |stages| then (s, t)
    else if stages[s].Fires(t, now) then (s, stages[s].Spent(t, now))
    else DecideFrom(stages, stages[s].Spent(t, now), now, s + 1)
  }

  predicate KeysApart(stages: seq<Stage>) {
    forall i, j :: 0 <= i < j < |stages| && stages[i].budget.Some? && stages[j].budget.Some? ==> stages[i].key != stages[j].key
  }

  /** A spending stage in [from, upTo]. */
  predicate Reached(stages: seq<Stage>, from: nat, upTo: nat, i: nat) {
    from <= i <= upTo && i < |stages| && stages[i].Spends()
  }

  /** Some reached stage counts against `key`. */
  predicate Touches(stages: seq<Stage>, from: nat, upTo: nat, key: string) {
    exists i | 0 <= i < |stages| :: Reached(stages, from, upTo, i) && stages[i].key == key
  }

  /** `u` is `t` after the reached stages were counted once each, and nothing else. */
  ghost predicate SpentOnce(stages: seq<Stage>, t: Table, u: Table, now: int, from: nat, upTo: nat) {
    && (forall i: nat :: Reached(stages, from, upTo, i) ==>
          stages[i].key in u && u[stages[i].key] == Hit(t, stages[i].key, stages[i].Window(), now))
    && (forall key :: !Touches(stages, from, upTo, key) ==> (key in u <==> key in t) && (key in t ==> u[key] == t[key]))
  }

  /** A budget that is not this stage's own is judged the same before and after the stage spends. */
  lemma OtherStageUnmoved(a: Stage, b: Stage, t: Table, now: int)
    requires a.Spends() && b.budget.Some? ==> a.key != b.key
    ensures b.Fires(a.Spent(t, now), now) == b.Fires(t, now)
    ensures b.Spends() ==> Hit(a.Spent(t, now), b.key, b.Window(), now) == Hit(t, b.key, b.Window(), now)
  {
  }

  lemma SpentOneMore(stages: seq<Stage>, t: Table, u: Table, now: int, s: nat, d: nat)
    requires KeysApart(stages) && s < |stages| && s < d
    requires SpentOnce(stages, stages[s].Spent(t, now), u, now, s + 1, d)
    ensures SpentOnce(stages, t, u, now, s, d)
  {
    var t' := stages[s].Spent(t, now);
    forall i: nat | Reached(stages, s, d, i)
      ensures stages[i].key in u && u[stages[i].key] == Hit(t, stages[i].key, stages[i].Window(), now)
    {
      if i == s {
        assert !Touches(stages, s + 1, d, stages[s].key);
      } else {
        assert Reached(stages, s + 1, d, i);
        OtherStageUnmoved(stages[s], stages[i], t, now);
      }
    }
    forall key | !Touches(stages, s, d, key)
      ensures (key in u <==> key in t) && (key in t ==> u[key] == t[key])
    {
      assert !Touches(stages, s + 1, d, key);
      assert stages[s].Spends() ==> Reached(stages, s, d, s);
    }
  }

  lemma SpentHere(stages: seq<Stage>, t: Table, now: int, s: nat)
    requires s < |stages|
    ensures SpentOnce(stages, t, stages[s].Spent(t, now), now, s, s)
  {
    forall key | !Touches(stages, s, s, key)
      ensures stages[s].Spends() ==> stages[s].key != key
    {
      assert stages[s].Spends() ==> Reached(stages, s, s, s);
    }
  }

  /**
   A request is decided by the first stage that fires, each judged on the table as it was before the
   request; exactly the spending stages up to that one are counted, once each.
   */
  lemma {:induction false} FirstFiringStageDecides(stages: seq<Stage>, t: Table, now: int, s: nat)
    requires KeysApart(stages) && s <= |stages|
    ensures var (d, u) := DecideFrom(stages, t, now, s);
      && (forall i :: s <= i < d ==> !stages[i].Fires(t, now))
      && (d < |stages| ==> stages[d].Fires(t, now))
      && SpentOnce(stages, t, u, now, s, d)
    decreases |stages| - s
  {
    if s < |stages| {
      if stages[s].Fires(t, now) {
        SpentHere(stages, t, now, s);
      } else {
        var t' := stages[s].Spent(t, now);
        FirstFiringStageDecides(stages, t', now, s + 1);
        var (d, u) := DecideFrom(stages, t', now, s + 1);
        forall i | s < i < |stages| ensures stages[i].Fires(t', now) == stages[i].Fires(t, now) {
          OtherStageUnmoved(stages[s], stages[i], t, now);
        }
        SpentOneMore(stages, t, u, now, s, d);
      }
    }
  }
}
