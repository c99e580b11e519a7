/** The commit fence of one invocation (internal/lifecycle/receipt/settlement.go): it orders
    the timeout's choice against entry into the journal append. */
module Settlement {
  import opened Wrappers

  datatype FenceState = Idle | Active | Finished | Abandoned

  /** The fence as a value: its state, and whether a committed outcome has been published. */
  datatype Fence = Fence(state: FenceState, published: bool)

  const FRESH := Fence(Idle, false)

  predicate Settled(fence: Fence) {
    fence.state == Finished || fence.state == Abandoned
  }

  /** An append has been admitted. */
  predicate Taken(fence: Fence) {
    fence.state == Active || fence.state == Finished
  }

  predicate Admits(fence: Fence, cancelled: bool) {
    fence.state == Idle && !cancelled
  }

  /** Entry: an idle fence is entered, or abandoned when the context is already cancelled. */
  function Entered(fence: Fence, cancelled: bool): Fence {
    if fence.state != Idle then fence
    else if cancelled then fence.(state := Abandoned)
    else fence.(state := Active)
  }

  /** The end of an admitted append. */
  function Closed(fence: Fence, committed: bool): Fence {
    Fence(Finished, committed)
  }

  /** The timeout's choice: an idle fence can never be entered again. */
  function Expired(fence: Fence): Fence {
    if fence.state == Idle then fence.(state := Abandoned) else fence
  }

  // ----- any sequence of sections -----

  /** The critical sections of the fence, in the order they get its lock. */
  datatype Section = Enter(cancelled: bool) | Close(committed: bool) | Expiry

  /** A closing section belongs to the admitted append; there is none without one. */
  function Next(fence: Fence, section: Section): Fence {
    match section
    case Enter(cancelled) => Entered(fence, cancelled)
    case Close(committed) => if fence.state == Active then Closed(fence, committed) else fence
    case Expiry => Expired(fence)
  }

  function After(fence: Fence, sections: seq<Section>): Fence
    decreases |sections|
  {
    if sections == [] then fence else After(Next(fence, sections[0]), sections[1..])
  }

  /** How many appends the sections admit. */
  function Admissions(fence: Fence, sections: seq<Section>): nat
    decreases |sections|
  {
    if sections == [] then 0
    else
      (if sections[0].Enter? && Admits(fence, sections[0].cancelled) then 1 else 0)
      + Admissions(Next(fence, sections[0]), sections[1..])
  }

  /** How many admitted appends the sections close as committed. */
  function Commits(fence: Fence, sections: seq<Section>): nat
    decreases |sections|
  {
    if sections == [] then 0
    else
      (if sections[0] == Close(true) && fence.state == Active then 1 else 0)
      + Commits(Next(fence, sections[0]), sections[1..])
  }

  /** At most one append is admitted whatever is called in whatever order, none on a fence that
      was entered or abandoned before, and it commits at most once. */
  lemma {:induction false} AtMostOneAppend(fence: Fence, sections: seq<Section>)
    ensures Admissions(fence, sections) <= if fence.state == Idle then 1 else 0
    ensures Commits(fence, sections) <= Admissions(fence, sections) + if fence.state == Active then 1 else 0
    ensures Taken(After(fence, sections)) <==> Taken(fence) || Admissions(fence, sections) == 1
    decreases |sections|
  {
    if sections != [] {
      AtMostOneAppend(Next(fence, sections[0]), sections[1..]);
    }
  }

  lemma {:induction false} Concat(fence: Fence, before: seq<Section>, after: seq<Section>)
    ensures After(fence, before + after) == After(After(fence, before), after)
    ensures Admissions(fence, before + after) == Admissions(fence, before) + Admissions(After(fence, before), after)
    ensures Commits(fence, before + after) == Commits(fence, before) + Commits(After(fence, before), after)
    decreases |before|
  {
    var all := before + after;
    if before == [] {
      assert all == after;
    } else {
      assert all[0] == before[0] && all[1..] == before[1..] + after;
      Concat(Next(fence, before[0]), before[1..], after);
    }
  }

  /** Once the fence has settled, nothing that comes later changes it. */
  lemma {:induction false} SettledForGood(fence: Fence, sections: seq<Section>)
    requires Settled(fence)
    ensures After(fence, sections) == fence
  {
    if sections != [] {
      SettledForGood(fence, sections[1..]);
    }
  }

  /** Expiry draws the line: no append is admitted after it, and the outcome a later read finds
      is either the one already published or the one of the append that was then in flight. */
  lemma NoneAfterExpiry(before: seq<Section>, after: seq<Section>)
    ensures Admissions(FRESH, before + [Expiry] + after) == Admissions(FRESH, before)
    ensures After(FRESH, before).state != Active
            ==> After(FRESH, before + [Expiry] + after) == After(FRESH, before + [Expiry])
    ensures After(FRESH, before).state == Active
            ==> Commits(FRESH, before + [Expiry] + after) == Commits(After(FRESH, before), after)
  {
    var mid := After(FRESH, before);
    Concat(FRESH, before + [Expiry], after);
    Concat(FRESH, before, [Expiry]);
    AtMostOneAppend(Expired(mid), after);
    assert After(mid, [Expiry]) == Expired(mid) by { assert [Expiry][1..] == []; }
    assert Admissions(mid, [Expiry]) == 0 && Commits(mid, [Expiry]) == 0 by { assert [Expiry][1..] == []; }
    Published(FRESH, before);
    if mid.state != Active {
      SettledForGood(Expired(mid), after);
    }
  }

  /** An outcome can be read exactly when an admitted append has committed. */
  lemma PublishedIffCommitted(sections: seq<Section>)
    ensures After(FRESH, sections).published <==> Commits(FRESH, sections) == 1
  {
    Published(FRESH, sections);
    AtMostOneAppend(FRESH, sections);
  }

  lemma {:induction false} Published(fence: Fence, sections: seq<Section>)
    requires fence.published ==> fence.state == Finished
    ensures After(fence, sections).published <==> fence.published || Commits(fence, sections) > 0
    ensures After(fence, sections).published ==> After(fence, sections).state == Finished
    decreases |sections|
  {
    if sections != [] {
      Published(Next(fence, sections[0]), sections[1..]);
    }
  }

  class CommitSettlement<Outcome> {
    var state: FenceState
    var outcome: Option<Outcome>
    ghost var sections: seq<Section>    // every section so far

    /** The fence is what its sections made it. */
    ghost predicate Valid()
      reads this
    {
      Value() == After(FRESH, sections)
    }

    ghost function Value(): Fence
      reads this
    {
      Fence(state, outcome.Some?)
    }

    constructor ()
      ensures Valid() && sections == []
    {
      state, outcome, sections := Idle, None, [];
    }

    /** The admission section of run: it admits only if nothing was admitted before. */
    method Enter(cancelled: bool) returns (admitted: bool)
      requires Valid()
      modifies this
      ensures Valid() && sections == old(sections) + [Section.Enter(cancelled)]
      ensures Admissions(FRESH, sections) == Admissions(FRESH, old(sections)) + if admitted then 1 else 0
      ensures admitted ==> Admissions(FRESH, old(sections)) == 0
      ensures outcome == old(outcome)
    {
      Record(Section.Enter(cancelled));
      if state != Idle {
        return false;
      }
      if cancelled {
        state := Abandoned;
        return false;
      }
      state := Active;
      return true;
    }

    /** The deferred section of run; a panicking append arrives here uncommitted. */
    method Settle(committed: bool, candidate: Outcome)
      requires Valid() && state == Active
      modifies this
      ensures Valid() && sections == old(sections) + [Close(committed)]
      ensures outcome == if committed then Some(candidate) else None
    {
      Record(Close(committed));
      state := Finished;
      outcome := if committed then Some(candidate) else None;
    }

    /** Expire: returns whether the wait for settlement is over; if it is, nothing that follows
        changes what can be read. */
    method Expire() returns (settled: bool)
      requires Valid()
      modifies this
      ensures Valid() && sections == old(sections) + [Expiry]
      ensures forall later :: Admissions(FRESH, sections + later) == Admissions(FRESH, old(sections))
      ensures settled ==> forall later :: After(FRESH, sections + later) == Value()
      ensures outcome == old(outcome)
    {
      forall later ensures Admissions(FRESH, sections + [Expiry] + later) == Admissions(FRESH, sections) {
        NoneAfterExpiry(sections, later);
      }
      Record(Expiry);
      if state == Idle {
        state := Abandoned;
      }
      settled := state == Finished || state == Abandoned;
      if settled {
        forall later ensures After(FRESH, sections + later) == Value() {
          Concat(FRESH, sections, later);
          SettledForGood(Value(), later);
        }
      }
    }

    method CommittedOutcome() returns (published: Option<Outcome>)
      requires Valid()
      ensures published == outcome
      ensures published.Some? <==> Commits(FRESH, sections) == 1
    {
      PublishedIffCommitted(sections);
      return outcome;
    }

    /** Notes a section whose effect the caller is about to carry out. */
    ghost method Record(section: Section)
      modifies this`sections
      ensures sections == old(sections) + [section]
      ensures After(FRESH, sections) == Next(After(FRESH, old(sections)), section)
      ensures Admissions(FRESH, sections)
           == Admissions(FRESH, old(sections))
              + if section.Enter? && Admits(After(FRESH, old(sections)), section.cancelled) then 1 else 0
      ensures After(FRESH, old(sections)).state == Idle ==> Admissions(FRESH, old(sections)) == 0
    {
      AtMostOneAppend(FRESH, sections);
      Concat(FRESH, sections, [section]);
      sections := sections + [section];
    }
  }
}
