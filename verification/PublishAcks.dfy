/** Over whole runs, which waiting handlers an ack can settle. */
module PublishAcks {
  import opened Prelude
  import opened PublishPipeline
  import opened PublishConservation

  /** The context is queued, being published, or waiting for its ack. */
  ghost predicate Holds(s: Service, ctx: AckContext)
  {
    || (exists q, i :: 0 <= q < |s.publisher.queues| && 0 <= i < |s.publisher.queues[q]| && s.publisher.queues[q][i].callback == Some(ctx))
    || (s.publisher.thread.Publishing? && s.publisher.thread.event.callback == Some(ctx))
    || ctx in s.acks
  }

  predicate WantsId(step: Step)
  {
    step.SendCommand? && step.request.hasCallback && step.request.fullAck
  }

  /** The request id that a send hands out, or is handed. */
  function IdOfSend(s: Service, step: Step): nat
  {
    match step
    case SendData(r) => r.reqId
    case SendCommand(_, _) => if WantsId(step) then s.nextReqId else 0
    case _ => 0
  }

  /** A context that a step brings in is that of its send; every other one was there before. */
  lemma NextHolds(s: Service, step: Step, maxEntries: nat, ctx: AckContext)
    requires WellFormed(s.publisher) && Holds(Next(s, step, maxEntries), ctx)
    ensures Holds(s, ctx) || (Next(s, step, maxEntries).issued == s.issued + 1 && ctx.id == s.issued && ctx.reqId == IdOfSend(s, step))
  {
    hide Holds;
    match step {
      case SendData(r) => SentHolds(s, r, maxEntries, ctx);
      case SendCommand(r, fits) =>
        var s' := if WantsId(step) then s.(nextReqId := NextReqId(s.nextReqId)) else s;
        SameHolds(s, s', ctx);
        if fits { SentHolds(s', r.(reqId := IdOfSend(s, step)), maxEntries, ctx); }
      case Start => SameHolds(s, Started(s), ctx);
      case StopRunning => SameHolds(s, Next(s, step, maxEntries), ctx);
      case Cleanup => CleanedHolds(s, ctx);
      case Poll(now) => PolledHolds(s, now, ctx);
      case Check => CheckedHolds(s, ctx);
      case Done(error) => DoneHolds(s, error, ctx);
      case Tick(sec, ms) => TickedHolds(s, sec, ms, ctx);
      case Ack(reqId) => AckedHolds(s, reqId, ctx);
    }
  }

  lemma SameHolds(s: Service, s': Service, ctx: AckContext)
    requires s'.publisher.queues == s.publisher.queues && s'.publisher.thread == s.publisher.thread && s'.acks == s.acks
    ensures Holds(s', ctx) <==> Holds(s, ctx)
  {
  }

  lemma SentHolds(s: Service, r: Request, maxEntries: nat, ctx: AckContext)
    requires Holds(SentData(s, r, maxEntries).0, ctx)
    ensures Holds(s, ctx) || (SentData(s, r, maxEntries).0.issued == s.issued + 1 && ctx.id == s.issued && ctx.reqId == r.reqId)
  {
    var s' := SentData(s, r, maxEntries).0;
    if q, i :| 0 <= q < |s'.publisher.queues| && 0 <= i < |s'.publisher.queues[q]| && s'.publisher.queues[q][i].callback == Some(ctx) {
      if i < |s.publisher.queues[q]| {
        assert s.publisher.queues[q][i].callback == Some(ctx);
      }
    }
  }

  lemma CleanedHolds(s: Service, ctx: AckContext)
    requires Holds(CleanedUp(s), ctx)
    ensures Holds(s, ctx)
  {
  }

  lemma PolledHolds(s: Service, now: nat, ctx: AckContext)
    requires WellFormed(s.publisher) && Holds(s.(publisher := Polled(s.publisher, now)), ctx)
    ensures Holds(s, ctx)
  {
  }

  lemma CheckedHolds(s: Service, ctx: AckContext)
    requires WellFormed(s.publisher) && Holds(s.(publisher := Checked(s.publisher)), ctx)
    ensures Holds(s, ctx)
  {
    var p, p' := s.publisher, Checked(s.publisher);
    if q, i :| 0 <= q < |p'.queues| && 0 <= i < |p'.queues[q]| && p'.queues[q][i].callback == Some(ctx) {
      if p'.queues[q] != p.queues[q] {
        assert p.queues[q][i + 1].callback == Some(ctx);
      }
    }
  }

  lemma DoneHolds(s: Service, error: Error, ctx: AckContext)
    requires Holds(PublishDone(s, error), ctx)
    ensures Holds(s, ctx)
  {
  }

  lemma TickedHolds(s: Service, sec: nat, ms: nat, ctx: AckContext)
    requires Holds(Ticked(s, sec, ms), ctx)
    ensures Holds(s, ctx)
  {
    NotDueFilters(s.acks, ms % WRAP, ctx);
  }

  lemma {:induction false} UnacknowledgedFilters(acks: seq<AckContext>, reqId: nat, ctx: AckContext)
    ensures ctx in Unacknowledged(acks, reqId) <==> ctx in acks && ctx.reqId != reqId
  {
    if acks != [] {
      UnacknowledgedFilters(acks[1..], reqId, ctx);
      assert ctx in acks <==> ctx == acks[0] || ctx in acks[1..];
    }
  }

  lemma AckedHolds(s: Service, reqId: nat, ctx: AckContext)
    requires Holds(Acked(s, reqId), ctx)
    ensures Holds(s, ctx)
  {
    UnacknowledgedFilters(s.acks, reqId, ctx);
  }

  /* ---- What the sends of a run were given ---- */

  /** A send with a callback: its request id, and the how-manieth id of the counter that was. */
  datatype Issue = Issue(reqId: nat, nth: Option<nat>)

  /** The number of ids that the counter has handed out. */
  function Handed(steps: seq<Step>): nat
  {
    if steps == [] then 0 else Handed(steps[..|steps| - 1]) + if WantsId(steps[|steps| - 1]) then 1 else 0
  }

  /** The sends of a run by the number of their callback. */
  function Issues(steps: seq<Step>, maxEntries: nat): seq<Issue>
  {
    if steps == [] then []
    else
      var before, last := steps[..|steps| - 1], steps[|steps| - 1];
      var s := After(before, maxEntries);
      Issues(before, maxEntries)
      + if Next(s, last, maxEntries).issued == s.issued then []
        else [Issue(IdOfSend(s, last), if WantsId(last) then Some(Handed(before)) else None)]
  }

  lemma NextCounts(s: Service, step: Step, maxEntries: nat)
    requires WellFormed(s.publisher)
    ensures Next(s, step, maxEntries).nextReqId == if WantsId(step) then NextReqId(s.nextReqId) else s.nextReqId
    ensures s.issued <= Next(s, step, maxEntries).issued <= s.issued + 1
  {
    hide Checked, Polled, Due, NotDue, Run, Acknowledged, Unacknowledged, Enqueued, Deadline;
  }

  ghost predicate Numbered(issues: seq<Issue>, handed: nat)
  {
    && (forall i :: 0 <= i < |issues| && issues[i].nth.Some? ==> issues[i].nth.value < handed && issues[i].reqId == NthReqId(issues[i].nth.value))
    && (forall i, j :: 0 <= i < j < |issues| && issues[i].nth.Some? && issues[j].nth.Some? ==> issues[i].nth.value < issues[j].nth.value)
  }

  lemma {:induction false} IssuesAreNumbered(steps: seq<Step>, maxEntries: nat)
    ensures After(steps, maxEntries).nextReqId == NthReqId(Handed(steps))
    ensures |Issues(steps, maxEntries)| == After(steps, maxEntries).issued
    ensures Numbered(Issues(steps, maxEntries), Handed(steps))
  {
    if steps != [] {
      var before, last := steps[..|steps| - 1], steps[|steps| - 1];
      IssuesAreNumbered(before, maxEntries);
      NextCounts(After(before, maxEntries), last, maxEntries);
      var issues, handed := Issues(before, maxEntries), Handed(before);
      OneMoreNumbered(issues, handed, IdOfSend(After(before, maxEntries), last));
      UnfoldIssues(steps, maxEntries);
      hide *;
    }
  }

  lemma UnfoldIssues(steps: seq<Step>, maxEntries: nat)
    requires steps != []
    ensures var before, last := steps[..|steps| - 1], steps[|steps| - 1];
            var s, issues, handed := After(before, maxEntries), Issues(before, maxEntries), Handed(before);
            && After(steps, maxEntries) == Next(s, last, maxEntries)
            && Handed(steps) == (if WantsId(last) then handed + 1 else handed)
            && NthReqId(handed + 1) == NextReqId(NthReqId(handed))
            && (WantsId(last) ==> IdOfSend(s, last) == s.nextReqId)
            && Issues(steps, maxEntries)
               == if Next(s, last, maxEntries).issued == s.issued then issues
                  else issues + [Issue(IdOfSend(s, last), if WantsId(last) then Some(handed) else None)]
  {
    hide Next, NextReqId;
    assert Issues(steps[..|steps| - 1], maxEntries) + [] == Issues(steps[..|steps| - 1], maxEntries);
  }

  lemma OneMoreNumbered(issues: seq<Issue>, handed: nat, reqId: nat)
    requires Numbered(issues, handed)
    ensures Numbered(issues, handed + 1) && Numbered(issues + [Issue(reqId, None)], handed)
    ensures reqId == NthReqId(handed) ==> Numbered(issues + [Issue(reqId, Some(handed))], handed + 1)
  {
    hide NthReqId;
  }

  ghost predicate Known(issues: seq<Issue>, ctx: AckContext)
  {
    ctx.id < |issues| && issues[ctx.id].reqId == ctx.reqId
  }

  /** Every context on its way still has the request id that it was issued with. */
  lemma {:induction false} ContextsAreKnown(steps: seq<Step>, maxEntries: nat, ctx: AckContext)
    requires Holds(After(steps, maxEntries), ctx)
    ensures Known(Issues(steps, maxEntries), ctx)
  {
    if steps != [] {
      var before, last := steps[..|steps| - 1], steps[|steps| - 1];
      var s := After(before, maxEntries);
      IssuesAreNumbered(before, maxEntries);
      NextHolds(s, last, maxEntries, ctx);
      if Holds(s, ctx) {
        ContextsAreKnown(before, maxEntries, ctx);
      }
      hide Next, Holds, Numbered;
    }
  }

  lemma TwiceCounts(s: seq<nat>, i: nat, j: nat)
    requires i < j < |s| && s[i] == s[j]
    ensures multiset(s)[s[i]] >= 2
  {
    assert s == s[..j] + s[j..];
    assert s[i] in s[..j] && s[j] in s[j..];
  }

  /** Waiting handlers are those of different sends. */
  lemma HandlersDiffer(steps: seq<Step>, maxEntries: nat, i: nat, j: nat)
    requires i < j < |After(steps, maxEntries).acks|
    ensures After(steps, maxEntries).acks[i].id != After(steps, maxEntries).acks[j].id
  {
    var s := After(steps, maxEntries);
    Conserved(steps, maxEntries);
    var id := s.acks[i].id;
    EachIdOnce(s.issued, id);
    assert Places(s)[id] >= multiset(AckIds(s.acks))[id];
    if id == s.acks[j].id {
      TwiceCounts(AckIds(s.acks), i, j);
    }
  }

  /** The context is that of a command that asked for an ack. */
  predicate ByCommand(ctx: AckContext, issues: seq<Issue>)
  {
    ctx.id < |issues| && issues[ctx.id].nth.Some?
  }

  /**
   * While the counter has handed out fewer than 2^32 ids, no two waiting handlers of commands share
   * one: an ack settles at most one of them.
   */
  lemma AckSettlesOneCommand(steps: seq<Step>, maxEntries: nat, i: nat, j: nat)
    requires Handed(steps) < WRAP
    requires i < j < |After(steps, maxEntries).acks|
    requires ByCommand(After(steps, maxEntries).acks[i], Issues(steps, maxEntries))
    requires ByCommand(After(steps, maxEntries).acks[j], Issues(steps, maxEntries))
    ensures After(steps, maxEntries).acks[i].reqId != After(steps, maxEntries).acks[j].reqId
  {
    var s, issues := After(steps, maxEntries), Issues(steps, maxEntries);
    HandlersDiffer(steps, maxEntries, i, j);
    IssuesAreNumbered(steps, maxEntries);
    ContextsAreKnown(steps, maxEntries, s.acks[i]);
    ContextsAreKnown(steps, maxEntries, s.acks[j]);
    NumberedDiffer(issues, Handed(steps), s.acks[i].id, s.acks[j].id);
    hide After, Issues, Handed;
  }

  lemma NumberedDiffer(issues: seq<Issue>, handed: nat, i: nat, j: nat)
    requires Numbered(issues, handed) && handed < WRAP && i < |issues| && j < |issues| && i != j
    requires issues[i].nth.Some? && issues[j].nth.Some?
    ensures issues[i].reqId != issues[j].reqId
  {
    var a, b := issues[i].nth.value, issues[j].nth.value;
    hide NthReqId;
    EarlyReqId(a);
    EarlyReqId(b);
    assert a != b;
  }

  lemma EarlyReqId(k: nat)
    requires k < WRAP - 1
    ensures NthReqId(k) == k + 1
  {
    ReqIdsRotate(k);
    RemainderIs(k, 0, k);
  }
}
