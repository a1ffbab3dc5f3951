/** Firing back: one trigger waiting, one being answered, and the answers not seen in a block
    yet. The packet path and the sender's thread touch this state in turns; each method below
    is one turn, and turns may come in any order the sender's own place in its loop allows. */
module Firing {
  import opened Collections
  import opened AgedMaps
  import Codec

  const MAX_TRIGGER_AGE := 400
  const MAX_PENDING := 256
  const PENDING_TTL := 120000

  type Signature = Codec.Signature

  datatype Trigger = Trigger(slot: nat, target: Signature, detected: nat)
  datatype Handover = Waiting | Displaced | Lost

  // ---------------------------------------------------------------- the one trigger

  /** Room for exactly one trigger: a new one takes the place of one not picked up yet. */
  class Latest {
    var held: Option<Trigger>
    /** The lock's holder died with it. */
    var poisoned: bool
    /** Every trigger put, and which of them were taken, in order. */
    ghost var puts: seq<Trigger>
    ghost var taken: seq<nat>

    constructor ()
      ensures Valid() && held == None && !poisoned && puts == [] && taken == []
    {
      held, poisoned, puts, taken := None, false, [], [];
    }

    /** What was taken is a subsequence of what was put, and what waits is the newest put. */
    ghost predicate Valid()
      reads this
    {
      && Ascending(taken)
      && (forall k :: 0 <= k < |taken| ==> taken[k] < |puts|)
      && (held.Some? ==> puts != [] && held.value == puts[|puts| - 1] && |puts| - 1 !in taken)
      && (held.None? && puts != [] ==> taken != [] && taken[|taken| - 1] == |puts| - 1)
    }

    lemma TakenRise()
      requires Valid()
      ensures forall k :: 0 <= k < |taken| ==> taken[k] < |puts|
      ensures forall j, k :: 0 <= j < k < |taken| ==> taken[j] < taken[k]
    {
    }

    method Put(t: Trigger) returns (h: Handover)
      requires Valid()
      modifies this`held, this`puts
      ensures Valid()
      ensures h == if poisoned then Lost else if old(held).Some? then Displaced else Waiting
      ensures if poisoned then held == old(held) && puts == old(puts) else held == Some(t) && puts == old(puts) + [t]
    {
      if poisoned {
        return Lost;
      }
      h := if held.Some? then Displaced else Waiting;
      held, puts := Some(t), puts + [t];
    }

    /** One look, on waking or on first asking: what is waiting, which is the newest trigger there
        is; or nothing, and then whether there is a reason to stop asking. */
    method Take(exit: bool) returns (t: Option<Trigger>, stop: bool)
      requires Valid()
      modifies this`held, this`taken
      ensures Valid()
      ensures t == if poisoned then None else old(held)
      ensures stop <==> poisoned || (t.None? && exit)
      ensures t.None? ==> held == old(held) && taken == old(taken)
      ensures t.Some? ==>
                && held == None && puts != [] && t.value == puts[|puts| - 1]
                && taken == old(taken) + [|puts| - 1]
    {
      if poisoned {
        return None, true;
      }
      if held.None? {
        return None, exit;
      }
      t, stop := held, false;
      held, taken := None, taken + [|puts| - 1];
    }

    method Poison()
      requires Valid()
      modifies this`poisoned
      ensures Valid() && poisoned
    {
      poisoned := true;
    }
  }

  // ---------------------------------------------------------------- sent and not seen yet

  datatype Pending = Pending(signature: Signature, triggerSlot: nat, sent: nat)

  ghost predicate InSendOrder(list: seq<Pending>) {
    forall i, j :: 0 <= i < j < |list| ==> list[i].sent <= list[j].sent
  }

  /** Where in the list the signature first stands. */
  function PositionOf(list: seq<Pending>, signature: Signature): (r: Option<nat>)
    ensures r.Some? ==> r.value < |list| && list[r.value].signature == signature
                        && forall i :: 0 <= i < r.value ==> list[i].signature != signature
    ensures r.None? <==> forall i :: 0 <= i < |list| ==> list[i].signature != signature
  {
    if list == [] then None
    else if list[0].signature == signature then Some(0)
    else match PositionOf(list[1..], signature)
      case None => None
      case Some(k) => Some(k + 1)
  }

  function Without(list: seq<Pending>, k: nat): seq<Pending>
    requires k < |list|
  {
    list[..k] + list[k + 1..]
  }

  lemma WithoutOne(list: seq<Pending>, k: nat)
    requires k < |list|
    ensures multiset(list) == multiset(Without(list, k)) + multiset{list[k]}
  {
    assert list == list[..k] + [list[k]] + list[k + 1..];
  }

  lemma OrderedWithoutOne(list: seq<Pending>, k: nat)
    requires k < |list| && InSendOrder(list)
    ensures InSendOrder(Without(list, k))
  {
    var rest := Without(list, k);
    forall i, j | 0 <= i < j < |rest|
      ensures rest[i].sent <= rest[j].sent
    {
      assert rest[i] == list[if i < k then i else i + 1] && rest[j] == list[if j < k then j else j + 1];
    }
  }

  /** The list after the front `k` of it was given up on. */
  ghost predicate GivenUp(all: seq<Pending>, list: seq<Pending>, k: nat, before: multiset<Pending>,
                          lost: multiset<Pending>) {
    k <= |all| && list == all[k..] && lost + multiset(list) == before + multiset(all)
  }

  /** Each of the front `k` was past its time, or one of too many. */
  ghost predicate OldOrTooMany(all: seq<Pending>, k: nat, now: nat) {
    forall i :: 0 <= i < k <= |all| ==> Since(now, all[i].sent) > PENDING_TTL || |all| - i > MAX_PENDING
  }

  /** What is left of a list with a new entry behind it: all but those given up on. */
  ghost predicate Entered(all: seq<Pending>, list: seq<Pending>, k: nat, now: nat) {
    k <= |all| && list == all[k..] && OldOrTooMany(all, k, now)
  }

  lemma GivingUpOne(all: seq<Pending>, list: seq<Pending>, k: nat, before: multiset<Pending>, lost: multiset<Pending>)
    requires GivenUp(all, list, k, before, lost) && list != []
    ensures GivenUp(all, list[1..], k + 1, before, lost + multiset{list[0]})
  {
    assert list == [list[0]] + list[1..];
  }

  lemma WhatIsLeft(all: seq<Pending>, list: seq<Pending>, k: nat, before: multiset<Pending>, lost: multiset<Pending>)
    requires GivenUp(all, list, k, before, lost)
    ensures k <= |all| && list == all[k..] && lost + multiset(list) == before + multiset(all)
    ensures InSendOrder(all) ==> InSendOrder(list)
    ensures k < |all| ==> list != [] && list[|list| - 1] == all[|all| - 1]
  {
  }

  lemma NoneGivenUp(all: seq<Pending>, before: multiset<Pending>)
    ensures GivenUp(all, all, 0, before, before)
  {
  }

  lemma Reckoned(were: multiset<Pending>, are: multiset<Pending>, p: multiset<Pending>, landed: multiset<Pending>,
                 before: multiset<Pending>, lost: multiset<Pending>, forgotten: multiset<Pending>)
    requires lost + are == before + (were + p)
    ensures (were + landed + before + forgotten) + p == are + landed + lost + forgotten
  {
    assert (were + landed + before + forgotten) + p == (before + (were + p)) + landed + forgotten;
    assert (lost + are) + landed + forgotten == are + landed + lost + forgotten;
  }

  lemma EntersLast(list: seq<Pending>, p: Pending)
    ensures multiset(list + [p]) == multiset(list) + multiset{p}
  {
  }

  class PendingList {
    var list: seq<Pending>
    /** Everything that ever entered the list, and the ways it left. */
    ghost var remembered: multiset<Pending>
    ghost var landed: multiset<Pending>
    ghost var lost: multiset<Pending>
    ghost var forgotten: multiset<Pending>

    constructor ()
      ensures Valid() && list == [] && remembered == landed == lost == forgotten == multiset{}
    {
      list, remembered, landed, lost, forgotten := [], multiset{}, multiset{}, multiset{}, multiset{};
    }

    /** In send order, within its bound, and everything remembered is still waiting or left in
        exactly one way. */
    ghost predicate Valid()
      reads this
    {
      && InSendOrder(list) && |list| <= MAX_PENDING
      && remembered == multiset(list) + landed + lost + forgotten
    }

    /** Gives up on whatever is too old or too much. Only the front is ever looked at, and in a
        list in send order that is enough. */
    method GiveUp(now: nat) returns (ghost k: nat)
      requires InSendOrder(list)
      modifies this`list, this`lost
      ensures GivenUp(old(list), list, k, old(lost), lost) && OldOrTooMany(old(list), k, now)
      ensures k < |old(list)| || old(list) == [] || Since(now, old(list)[|old(list)| - 1].sent) > PENDING_TTL
      ensures |list| <= MAX_PENDING && InSendOrder(list)
      ensures forall i :: 0 <= i < |list| ==> Since(now, list[i].sent) <= PENDING_TTL
    {
      hide GivenUp;
      k := 0;
      NoneGivenUp(list, lost);
      while list != [] && (Since(now, list[0].sent) > PENDING_TTL || |list| > MAX_PENDING)
        invariant GivenUp(old(list), list, k, old(lost), lost) && OldOrTooMany(old(list), k, now)
        invariant k < |old(list)| || old(list) == [] || Since(now, old(list)[|old(list)| - 1].sent) > PENDING_TTL
        decreases |list|
      {
        GivingUpOne(old(list), list, k, old(lost), lost);
        WhatIsLeft(old(list), list, k, old(lost), lost);
        lost := lost + multiset{list[0]};
        list := list[1..];
        k := k + 1;
      }
      WhatIsLeft(old(list), list, k, old(lost), lost);
    }

    /** Enters a transaction about to be sent. */
    method Remember(p: Pending, now: nat)
      requires Valid() && forall i :: 0 <= i < |list| ==> list[i].sent <= p.sent
      modifies this`list, this`remembered, this`lost
      ensures Valid() && remembered == old(remembered) + multiset{p}
      ensures exists k: nat :: Entered(old(list) + [p], list, k, now)
      ensures Since(now, p.sent) <= PENDING_TTL ==> list != [] && list[|list| - 1] == p
      ensures forall i :: 0 <= i < |list| ==> Since(now, list[i].sent) <= PENDING_TTL
    {
      hide GivenUp, OldOrTooMany, Since;
      EntersLast(list, p);
      remembered := remembered + multiset{p};
      list := list + [p];
      ghost var all := list;
      ghost var k := GiveUp(now);
      WhatIsLeft(all, list, k, old(lost), lost);
      assert Entered(all, list, k, now);
      Reckoned(multiset(old(list)), multiset(list), multiset{p}, landed, old(lost), lost, forgotten);
    }

    /** An answer has landed: the first entry with its signature leaves, if there is one. */
    method Landed(signature: Signature) returns (entry: Option<Pending>)
      requires Valid()
      modifies this`list, this`landed
      ensures Valid()
      ensures match PositionOf(old(list), signature)
              case None => entry == None && list == old(list) && landed == old(landed)
              case Some(k) => entry == Some(old(list)[k]) && list == Without(old(list), k)
                              && landed == old(landed) + multiset{old(list)[k]}
    {
      match PositionOf(list, signature)
      case None => entry := None;
      case Some(k) =>
        WithoutOne(list, k);
        OrderedWithoutOne(list, k);
        entry := Some(list[k]);
        landed := landed + multiset{list[k]};
        list := Without(list, k);
    }

    /** An answer could not be sent: the first entry with its signature leaves, if there is one. */
    method Forget(signature: Signature)
      requires Valid()
      modifies this`list, this`forgotten
      ensures Valid()
      ensures match PositionOf(old(list), signature)
              case None => list == old(list) && forgotten == old(forgotten)
              case Some(k) => list == Without(old(list), k) && forgotten == old(forgotten) + multiset{old(list)[k]}
    {
      match PositionOf(list, signature)
      case None =>
      case Some(k) =>
        WithoutOne(list, k);
        OrderedWithoutOne(list, k);
        forgotten := forgotten + multiset{list[k]};
        list := Without(list, k);
    }
  }

  // ---------------------------------------------------------------- the whole of it

  /** Where the sender stands in its loop: waiting, out of it for good, with a trigger just taken,
      about to build an answer to it, or with that answer on its way. */
  datatype Phase =
    | Idle
    | Stopped
    | InHand(trigger: Trigger)
    | Armed(trigger: Trigger, nonce: nat)
    | Sending(trigger: Trigger, signature: Signature)

  /** One answer: which trigger put it answers, when that was found worth answering, when the
      answer was fired, and the nonce that makes it its own transaction. */
  datatype Shot = Shot(answered: nat, judged: nat, at: nat, nonce: nat)

  /** Answers go to triggers taken, each at most once and in order, none older than a slot when
      judged, none sooner after the one before it than the cooldown allows, each with a nonce
      of its own. */
  ghost predicate Paced(cooldown: nat, puts: seq<Trigger>, taken: seq<nat>, shots: seq<Shot>) {
    && (forall k :: 0 <= k < |shots| ==> Answers(puts, taken, shots[k]) && shots[k].nonce == k + 1)
    && (forall j, k :: 0 <= j < k < |shots| ==>
          shots[j].answered < shots[k].answered && shots[j].at + cooldown <= shots[k].at)
  }

  ghost predicate Answers(puts: seq<Trigger>, taken: seq<nat>, shot: Shot) {
    && shot.answered in taken && shot.answered < |puts|
    && Since(shot.judged, puts[shot.answered].detected) <= MAX_TRIGGER_AGE && shot.judged <= shot.at
  }

  lemma PacedWithMorePuts(cooldown: nat, puts: seq<Trigger>, more: seq<Trigger>, taken: seq<nat>, wider: seq<nat>,
                          shots: seq<Shot>)
    requires Paced(cooldown, puts, taken, shots) && puts <= more && taken <= wider
    ensures Paced(cooldown, more, wider, shots)
  {
    forall k | 0 <= k < |shots|
      ensures Answers(more, wider, shots[k])
    {
      assert Answers(puts, taken, shots[k]);
      var j :| 0 <= j < |taken| && taken[j] == shots[k].answered;
      assert wider[j] == shots[k].answered;
    }
  }

  lemma PacedWithOneMore(cooldown: nat, puts: seq<Trigger>, taken: seq<nat>, shots: seq<Shot>, shot: Shot)
    requires Paced(cooldown, puts, taken, shots)
    requires Answers(puts, taken, shot) && shot.nonce == |shots| + 1
    requires shots != [] ==>
               var last := shots[|shots| - 1]; last.answered < shot.answered && last.at + cooldown <= shot.at
    ensures Paced(cooldown, puts, taken, shots + [shot])
  {
    forall j, k | 0 <= j < k < |shots + [shot]|
      ensures (shots + [shot])[j].answered < (shots + [shot])[k].answered
      ensures (shots + [shot])[j].at + cooldown <= (shots + [shot])[k].at
    {
      if k == |shots| && j < k - 1 {
        assert shots[j].answered < shots[k - 1].answered && shots[j].at + cooldown <= shots[k - 1].at;
      }
    }
  }

  class Sniper {
    const cooldown: nat
    const latest: Latest
    const pending: PendingList

    var phase: Phase
    var lastFired: Option<nat>
    var fired: nat

    var triggered: nat
    var dropped: nat
    var sent: nat
    var failed: nat
    var skipped: nat
    var stale: nat

    /** The latest moment the sender has acted at, and its answers. */
    ghost var clock: nat
    ghost var shots: seq<Shot>

    constructor (cooldown: nat)
      ensures Valid() && fresh(latest) && fresh(pending) && this.cooldown == cooldown
      ensures phase == Idle && shots == [] && triggered == 0
    {
      this.cooldown := cooldown;
      latest := new Latest();
      pending := new PendingList();
      phase, lastFired, fired := Idle, None, 0;
      triggered, dropped, sent, failed, skipped, stale := 0, 0, 0, 0, 0, 0;
      clock, shots := 0, [];
    }

    /** The sender has a trigger in its hand. */
    ghost predicate Busy()
      reads this
    {
      !phase.Idle? && !phase.Stopped?
    }

    /** Every trigger counted is accounted for: answered, failed, skipped, overtaken or too old,
        or else still waiting or in the sender's hand. */
    ghost predicate Conserved()
      reads this, latest
    {
      && triggered == |latest.puts|
      && triggered == sent + failed + skipped + stale
                      + (if latest.held.Some? then 1 else 0) + (if Busy() then 1 else 0)
    }

    ghost predicate InStep()
      reads this, latest
    {
      && (Busy() ==>
            latest.taken != [] && latest.taken[|latest.taken| - 1] < |latest.puts|
            && phase.trigger == latest.puts[latest.taken[|latest.taken| - 1]])
      && (phase.InHand? && shots != [] ==> shots[|shots| - 1].answered < latest.taken[|latest.taken| - 1])
      && fired == |shots|
      && lastFired == (if shots == [] then None else Some(shots[|shots| - 1].at))
      && (lastFired.Some? ==> lastFired.value <= clock)
      && (shots != [] ==> latest.taken != [] && shots[|shots| - 1].answered <= latest.taken[|latest.taken| - 1])
    }

    ghost predicate Valid()
      reads this, latest, pending
    {
      && latest.Valid() && pending.Valid()
      && Conserved() && InStep()
      && Paced(cooldown, latest.puts, latest.taken, shots)
      && forall i :: 0 <= i < |pending.list| ==> pending.list[i].sent <= clock
    }

    /** On the packet path: there is something to answer. It takes the place of what still waits,
        or is dropped if the lock is lost. */
    method Trigger(t: Trigger)
      requires Valid()
      modifies this`triggered, this`stale, this`dropped, latest
      ensures Valid()
      ensures if latest.poisoned then dropped == old(dropped) + 1 && latest.puts == old(latest.puts)
              else dropped == old(dropped) && latest.puts == old(latest.puts) + [t] && latest.held == Some(t)
    {
      hide Paced, PendingList.Valid, Latest.Valid;
      ghost var puts, taken := latest.puts, latest.taken;
      var handover := latest.Put(t);
      PacedWithMorePuts(cooldown, puts, latest.puts, taken, latest.taken, shots);
      match handover
      case Waiting => triggered := triggered + 1;
      case Displaced => triggered, stale := triggered + 1, stale + 1;
      case Lost => dropped := dropped + 1;
    }

    /** The sender looks for a trigger, and picks up the newest there is. It stops looking when it
        is told to and nothing waits, or when the lock is lost. */
    method TakeUp(exit: bool) returns (took: bool)
      requires Valid() && phase.Idle?
      modifies this`phase, latest`held, latest`taken
      ensures Valid() && latest.puts == old(latest.puts)
      ensures took <==> !latest.poisoned && old(latest.held).Some?
      ensures took ==> phase == InHand(latest.puts[|latest.puts| - 1])
      ensures !took ==> phase == if latest.poisoned || exit then Stopped else Idle
    {
      hide Paced, PendingList.Valid, Latest.Valid;
      ghost var puts, taken := latest.puts, latest.taken;
      var t, stop := latest.Take(exit);
      latest.TakenRise();
      PacedWithMorePuts(cooldown, puts, latest.puts, taken, latest.taken, shots);
      took := t.Some?;
      if took {
        phase := InHand(t.value);
      } else if stop {
        phase := Stopped;
      }
    }

    /** The sender dies while it holds the lock, which it only does while it looks. Every trigger
        from now on is dropped and counted so. */
    method Die()
      requires Valid() && phase.Idle?
      modifies this`phase, latest`poisoned
      ensures Valid() && phase.Stopped? && latest.poisoned
      ensures latest.held == old(latest.held) && latest.puts == old(latest.puts)
    {
      hide Paced, PendingList.Valid, Latest.Valid;
      latest.Poison();
      phase := Stopped;
    }

    /** The sender decides whether the trigger in its hand is worth answering: young enough, far
        enough from the last answer, and with a blockhash to build one on. It looks at the clock
        for each of the first two, and once more when it fires. */
    method Judge(now: nat, later: nat, firing: nat, blockhash: bool) returns (go: bool)
      requires Valid() && phase.InHand? && clock <= now <= later <= firing
      modifies this`phase, this`stale, this`skipped, this`failed, this`lastFired, this`fired, this`clock, this`shots
      ensures Valid()
      ensures var tooOld := Since(now, old(phase).trigger.detected) > MAX_TRIGGER_AGE;
              var cooling := old(lastFired).Some? && later - old(lastFired).value < cooldown;
              && go == (!tooOld && !cooling && blockhash)
              && stale == old(stale) + (if tooOld then 1 else 0)
              && skipped == old(skipped) + (if !tooOld && cooling then 1 else 0)
              && failed == old(failed) + (if !tooOld && !cooling && !blockhash then 1 else 0)
      ensures !go ==> phase.Idle? && shots == old(shots) && lastFired == old(lastFired)
      ensures go ==> && phase == Armed(old(phase).trigger, fired) && lastFired == Some(firing)
                     && shots == old(shots) + [Shot(latest.taken[|latest.taken| - 1], now, firing, fired)]
    {
      hide Paced, Latest.Valid, PendingList.Valid, Since;
      clock := now;
      if Since(now, phase.trigger.detected) > MAX_TRIGGER_AGE {
        stale, phase := stale + 1, Idle;
        return false;
      }
      clock := later;
      if lastFired.Some? && later - lastFired.value < cooldown {
        skipped, phase := skipped + 1, Idle;
        return false;
      }
      if !blockhash {
        failed, phase := failed + 1, Idle;
        return false;
      }
      Arm(now, firing);
      return true;
    }

    /** The trigger was found worth answering at `judged`, and is answered now. */
    method Arm(ghost judged: nat, firing: nat)
      requires Valid() && phase.InHand? && judged <= clock <= firing
      requires Since(judged, phase.trigger.detected) <= MAX_TRIGGER_AGE
      requires lastFired.Some? ==> lastFired.value + cooldown <= firing
      modifies this`phase, this`lastFired, this`fired, this`clock, this`shots
      ensures Valid() && phase == Armed(old(phase).trigger, fired) && lastFired == Some(firing)
      ensures shots == old(shots) + [Shot(latest.taken[|latest.taken| - 1], judged, firing, fired)]
    {
      hide Paced, Latest.Valid, PendingList.Valid, Since;
      ghost var shot := Shot(latest.taken[|latest.taken| - 1], judged, firing, fired + 1);
      PacedWithOneMore(cooldown, latest.puts, latest.taken, shots, shot);
      shots, clock := shots + [shot], firing;
      fired, lastFired := fired + 1, Some(firing);
      phase := Armed(phase.trigger, fired);
    }

    /** The answer is entered as sent before it is sent: it can be back before the send returns. */
    method Register(signature: Option<Signature>, now: nat, later: nat) returns (built: bool)
      requires Valid() && phase.Armed? && clock <= now <= later
      modifies this`phase, this`failed, this`clock, pending
      ensures Valid() && built == signature.Some?
      ensures built ==>
                && phase == Sending(old(phase).trigger, signature.value)
                && (var p := Pending(signature.value, old(phase).trigger.slot, now);
                    && pending.remembered == old(pending.remembered) + multiset{p}
                    && exists k: nat :: Entered(old(pending.list) + [p], pending.list, k, later))
                && forall i :: 0 <= i < |pending.list| ==> Since(later, pending.list[i].sent) <= PENDING_TTL
      ensures !built ==> phase.Idle? && pending.list == old(pending.list)
    {
      hide Paced, Latest.Valid, PendingList.Valid, OldOrTooMany;
      clock := later;
      if signature.None? {
        failed, phase := failed + 1, Idle;
        return false;
      }
      pending.Remember(Pending(signature.value, phase.trigger.slot, now), later);
      phase := Sending(phase.trigger, signature.value);
      return true;
    }

    /** The send came back. One that failed is forgotten rather than waited for. */
    method Finish(ok: bool)
      requires Valid() && phase.Sending?
      modifies this`phase, this`sent, this`failed, pending
      ensures Valid() && phase.Idle?
      ensures ok ==> sent == old(sent) + 1 && pending.list == old(pending.list)
      ensures !ok ==>
                && failed == old(failed) + 1
                && pending.list == match PositionOf(old(pending.list), old(phase).signature)
                                   case None => old(pending.list)
                                   case Some(k) => Without(old(pending.list), k)
    {
      hide Paced, Latest.Valid, PendingList.Valid;
      if ok {
        sent := sent + 1;
      } else {
        pending.Forget(phase.signature);
        failed := failed + 1;
      }
      phase := Idle;
    }

    /** The packet path: one of our own came back. */
    method Landed(signature: Signature) returns (entry: Option<Pending>)
      requires Valid()
      modifies pending
      ensures Valid()
      ensures match PositionOf(old(pending.list), signature)
              case None => entry == None && pending.list == old(pending.list)
              case Some(k) => entry == Some(old(pending.list)[k]) && pending.list == Without(old(pending.list), k)
    {
      hide Paced, Latest.Valid, PendingList.Valid, Conserved, InStep;
      entry := pending.Landed(signature);
    }
  }
}
