/**
  The imperative controller of src/client/features/autopilot/autopilot-controller.ts.

  Its fields are the source's private Maps and Sets, updated in place. Every method is proved to
  act on each session id by the matching AutopilotCell function and to leave the other ids alone,
  so what AutopilotTheorems and AutopilotJournal prove about cells holds of this class. An async
  method is cut at its awaits: the first half returns what it captured, a later half takes it back.
*/
module AutopilotClient {
  import opened Wrappers
  import opened SessionList
  import opened AutopilotCell

  /** One publication: fresh copies of the projection's readable part. */
  datatype ClientState = ClientState(
    snapshots: map<string, Snapshot>,
    attention: map<string, Attention>,
    pending: set<string>,
    errors: map<string, string>)

  class AutopilotController {
    var snapshots: map<string, Snapshot>
    var attention: map<string, Attention>
    var pending: set<string>
    var errors: map<string, string>
    var recoveryErrors: map<string, string>
    var versions: map<string, nat>
    var revisions: map<string, nat>
    var requestRevisions: map<string, nat>
    var mutationEpochs: map<string, nat>
    var successfulMutationFloors: map<string, nat>
    var hydrateEpochs: map<string, nat>
    var cursors: map<string, nat>
    var wanted: set<string>
    var disposed: bool
    /** What the last call of the publish callback received. */
    var published: ClientState

    /** Everything the controller says about one session. */
    ghost function View(id: string): Cell
      reads this
    {
      Cell(disposed, id in wanted, Get(snapshots, id), Get(attention, id), id in pending,
           Get(errors, id), Get(recoveryErrors, id), Get(versions, id), Get(revisions, id),
           Get(requestRevisions, id), Get(mutationEpochs, id), Get(successfulMutationFloors, id),
           Get(hydrateEpochs, id), Get(cursors, id))
    }

    /** Between calls, subscribers hold the current projection. */
    ghost predicate UpToDate()
      reads this
    {
      published == ClientState(snapshots, attention, pending, errors + recoveryErrors)
    }

    constructor ()
      ensures UpToDate() && forall x: string :: View(x) == Absent()
    {
      snapshots, attention, pending, errors, recoveryErrors := map[], map[], {}, map[], map[];
      versions, revisions, requestRevisions, mutationEpochs := map[], map[], map[], map[];
      successfulMutationFloors, hydrateEpochs, cursors := map[], map[], map[];
      wanted, disposed := {}, false;
      published := ClientState(map[], map[], {}, map[]);
    }

    method Bootstrap(sessions: seq<(string, Read)>)
      requires UpToDate()
      modifies this
      ensures UpToDate()
      ensures forall x: string :: View(x) == old(View(x)).Bootstrap(ItemsOf(sessions, x))
    {
      if disposed {
        return;
      }
      var next := set i | 0 <= i < |sessions| :: sessions[i].0;
      assert forall x: string :: x in next <==> ItemsOf(sessions, x) != [];
      RemoveUnlisted(next);
      wanted := next;
      BootstrapListed(sessions);
      Publish();
    }

    /** Bootstrap's loop. */
    method BootstrapListed(sessions: seq<(string, Read)>)
      modifies this
      ensures forall x: string :: View(x) == old(View(x)).BootstrapItems(ItemsOf(sessions, x))
    {
      for i := 0 to |sessions|
        invariant forall x: string :: View(x) == old(View(x)).BootstrapItems(ItemsOf(sessions[..i], x))
      {
        var (id, session) := sessions[i];
        ItemsOfNext(sessions, i);
        BootstrapItem(id, session);
      }
      assert sessions[..|sessions|] == sessions;
    }

    method RemoveUnlisted(next: set<string>)
      modifies this
      ensures disposed == old(disposed)
      ensures forall x: string :: View(x) == (if x in old(wanted) - next then old(View(x)).Remove() else old(View(x)))
    {
      var leaving := wanted - next;
      while leaving != {}
        invariant disposed == old(disposed) && leaving <= old(wanted) - next
        invariant forall x: string ::
          View(x) == (if x in old(wanted) - next - leaving then old(View(x)).Remove() else old(View(x)))
        decreases leaving
      {
        var id :| id in leaving;
        Remove(id);
        leaving := leaving - {id};
      }
    }

    /** The body of bootstrap's loop. */
    method BootstrapItem(id: string, session: Read)
      modifies this
      ensures View(id) == old(View(id)).BootstrapItem(session)
      ensures forall x: string :: x != id ==> View(x) == old(View(x))
      ensures disposed == old(disposed)
    {
      Register(id);
      var known := Get(cursors, id).GetOr(0);
      var floor := Get(successfulMutationFloors, id);
      if && id !in pending
         && (floor.None? || (session.sequence.Some? && session.sequence.value > floor.value))
         && ((session.sequence.Some? && session.sequence.value > known) || (id !in snapshots && known == 0)) {
        AdvanceAndAccept(id, session);
      }
    }

    method AdvanceAndAccept(id: string, session: Read)
      modifies `cursors, `successfulMutationFloors, `revisions, `snapshots, `recoveryErrors, `attention
      ensures View(id) == old(View(id)).AdvanceTo(session.sequence).AcceptSnapshot(session)
      ensures forall x: string :: x != id ==> View(x) == old(View(x))
    {
      AdvanceTo(id, session.sequence);
      AcceptSnapshot(id, session);
    }

    method Register(id: string)
      modifies `versions, `revisions
      ensures View(id) == old(View(id)).Registered()
      ensures forall x: string :: x != id ==> View(x) == old(View(x))
    {
      if id !in versions {
        versions := versions[id := 0];
      }
      if id !in revisions {
        revisions := revisions[id := 0];
      }
    }

    /** A sequenced source moves the cursor and retires a floor it has passed. */
    method AdvanceTo(id: string, sequence: Option<nat>)
      modifies `cursors, `successfulMutationFloors
      ensures View(id) == old(View(id)).AdvanceTo(sequence)
      ensures forall x: string :: x != id ==> View(x) == old(View(x))
    {
      if sequence.Some? {
        cursors := cursors[id := sequence.value];
        if id in successfulMutationFloors && sequence.value > successfulMutationFloors[id] {
          successfulMutationFloors := successfulMutationFloors - {id};
        }
      }
    }

    method Observe(id: string, sequence: nat, body: Body)
      requires UpToDate()
      modifies this
      ensures UpToDate()
      ensures View(id) == old(View(id)).Observe(sequence, body)
      ensures forall x: string :: x != id ==> View(x) == old(View(x))
    {
      if disposed || id !in wanted || sequence <= Get(cursors, id).GetOr(0) {
        return;
      }
      MoveTo(id, sequence);
      ApplyBody(id, body);
      Publish();
    }

    method MoveTo(id: string, sequence: nat)
      modifies `cursors, `revisions
      ensures View(id) == old(View(id)).MoveTo(sequence)
      ensures forall x: string :: x != id ==> View(x) == old(View(x))
    {
      cursors := cursors[id := sequence];
      revisions := revisions[id := Get(revisions, id).GetOr(0) + 1];
    }

    method ApplyBody(id: string, body: Body)
      modifies `snapshots, `recoveryErrors, `attention
      ensures View(id) == old(View(id)).ApplyBody(body)
      ensures forall x: string :: x != id ==> View(x) == old(View(x))
    {
      match body {
        case AutopilotUpdated(candidate) => ApplySnapshot(id, candidate);
        case AttentionRequired(candidate) => ApplyAttention(id, candidate);
        case AgentMessageCompleted(turnId, finalAnswer, report) =>
          if id in attention && Reports(attention[id], turnId, finalAnswer, report) {
            attention := attention[id := attention[id].(report := report)];
          }
        case AttentionResolved(_, _) => attention := attention - {id};
        case OtherEvent =>
      }
    }

    method HydrateStart(id: string, expectedCursor: Option<nat>) returns (h: Hydration)
      requires UpToDate()
      modifies this
      ensures UpToDate()
      ensures h == old(View(id)).CaptureHydration(expectedCursor)
      ensures View(id) == old(View(id)).HydrateStart()
      ensures forall x: string :: x != id ==> View(x) == old(View(x))
    {
      var epoch := Get(hydrateEpochs, id).GetOr(0) + 1;
      h := Hydration(Get(versions, id).GetOr(0), epoch, expectedCursor.GetOr(Get(cursors, id).GetOr(0)),
                     Get(requestRevisions, id), Get(mutationEpochs, id).GetOr(0));
      hydrateEpochs := hydrateEpochs[id := epoch];
    }

    /** `None` is a rejected getSession: the last confirmed state is kept. */
    method HydrateSettle(id: string, h: Hydration, response: Option<Read>)
      requires UpToDate()
      modifies this
      ensures UpToDate()
      ensures View(id) == old(View(id)).HydrateSettle(h, response)
      ensures forall x: string :: x != id ==> View(x) == old(View(x))
    {
      if response.None?
         || !Current(id, h.version)
         || Get(hydrateEpochs, id) != Some(h.epoch)
         || Get(mutationEpochs, id).GetOr(0) != h.mutationEpoch
         || (id in requestRevisions && Get(requestRevisions, id) != h.requestRevision) {
        return;
      }
      AcceptHydration(id, h.requestedCursor, response.value);
      Publish();
    }

    /** What a hydrate that nothing overtook does with its response. */
    method AcceptHydration(id: string, requestedCursor: nat, session: Read)
      modifies `cursors, `revisions, `snapshots, `recoveryErrors, `attention
      ensures View(id) == old(View(id)).AcceptHydration(requestedCursor, session)
      ensures forall x: string :: x != id ==> View(x) == old(View(x))
    {
      var currentCursor := Get(cursors, id).GetOr(0);
      if session.sequence.Some? && session.sequence.value > currentCursor {
        cursors := cursors[id := session.sequence.value];
        AcceptSnapshot(id, session);
      } else if session.sequence.None? && currentCursor == requestedCursor {
        AcceptSnapshot(id, session);
      }
    }

    method ToggleStart(id: string) returns (sent: Option<Mutation>)
      requires UpToDate()
      modifies this
      ensures UpToDate()
      ensures var c := old(View(id));
        if c.MayToggle() then sent == Some(c.CaptureMutation()) && View(id) == c.ToggleStart()
        else sent == None && View(id) == c
      ensures forall x: string :: x != id ==> View(x) == old(View(x))
    {
      if disposed || id !in wanted || id in pending {
        return None;
      }
      sent := Some(Mutation(Get(versions, id).GetOr(0), Get(revisions, id).GetOr(0)));
      CountRequest(id);
      Lock(id);
      Publish();
    }

    /** A toggle counts as a request and withdraws the recovery notice. */
    method CountRequest(id: string)
      modifies `requestRevisions, `recoveryErrors
      ensures View(id) == old(View(id)).(
        requestRevision := Some(old(View(id)).requestRevision.GetOr(0) + 1), recoveryError := None)
      ensures forall x: string :: x != id ==> View(x) == old(View(x))
    {
      requestRevisions := requestRevisions[id := Get(requestRevisions, id).GetOr(0) + 1];
      recoveryErrors := recoveryErrors - {id};
    }

    method ToggleSettle(id: string, sent: Mutation, outcome: ToggleOutcome)
      requires UpToDate()
      modifies this
      ensures UpToDate()
      ensures View(id) == old(View(id)).ToggleSettle(sent, outcome)
      ensures forall x: string :: x != id ==> View(x) == old(View(x))
    {
      if Current(id, sent.version) && Get(revisions, id) == Some(sent.revision) {
        match outcome {
          case Updated(candidate) => ApplyToggle(id, sent, candidate);
          case Failed(message) => errors := errors[id := message];
        }
      }
      Finish(id, sent.version);
    }

    method ApplyToggle(id: string, sent: Mutation, candidate: Option<Snapshot>)
      modifies `snapshots, `recoveryErrors, `revisions, `successfulMutationFloors, `attention
      ensures View(id) == old(View(id)).ToggleApplied(sent, candidate)
      ensures forall x: string :: x != id ==> View(x) == old(View(x))
    {
      ApplySnapshot(id, candidate);
      revisions := revisions[id := sent.revision + 1];
      successfulMutationFloors := successfulMutationFloors[id := Get(cursors, id).GetOr(0)];
      if candidate.Some? && !candidate.value.enabled {
        attention := attention - {id};
      }
    }

    method ResolveStart(id: string, guidanceTooLong: bool) returns (sent: Option<Mutation>)
      requires UpToDate()
      modifies this
      ensures UpToDate()
      ensures var c := old(View(id));
        if !c.MayResolve() then sent == None && View(id) == c
        else if guidanceTooLong then sent == None && View(id) == c.GuidanceTooLong()
        else sent == Some(c.CaptureMutation()) && View(id) == c.ResolveStart()
      ensures forall x: string :: x != id ==> View(x) == old(View(x))
    {
      if id !in attention || id in pending || disposed {
        return None;
      }
      if guidanceTooLong {
        errors := errors[id := "Guidance must be 600 characters or fewer."];
        Publish();
        return None;
      }
      sent := Some(Mutation(Get(versions, id).GetOr(0), Get(revisions, id).GetOr(0)));
      Lock(id);
      Publish();
    }

    /** The resolve request settled; a returned hydration is the one resolve now awaits. */
    method ResolveReply(id: string, sent: Mutation, failure: Option<string>) returns (h: Option<Hydration>)
      requires UpToDate()
      modifies this
      ensures UpToDate()
      ensures View(id) == old(View(id)).ResolveReply(sent, failure)
      ensures h == if old(View(id)).ResolveHydrates(sent, failure)
                   then Some(old(View(id)).CaptureHydration(None)) else None
      ensures forall x: string :: x != id ==> View(x) == old(View(x))
    {
      h := None;
      var unraced := Current(id, sent.version) && Get(revisions, id) == Some(sent.revision);
      if unraced && failure.None? {
        var hydration := HydrateStart(id, None);
        return Some(hydration);
      }
      if unraced {
        errors := errors[id := failure.value];
      }
      Finish(id, sent.version);
    }

    method Lock(id: string)
      modifies `mutationEpochs, `pending, `errors
      ensures View(id) == old(View(id)).ResolveStart()
      ensures forall x: string :: x != id ==> View(x) == old(View(x))
    {
      mutationEpochs := mutationEpochs[id := Get(mutationEpochs, id).GetOr(0) + 1];
      pending := pending + {id};
      errors := errors - {id};
    }

    /** The `finally` block of toggle and resolve. */
    method Finish(id: string, version: nat)
      modifies this
      ensures UpToDate()
      ensures View(id) == old(View(id)).Finish(version)
      ensures forall x: string :: x != id ==> View(x) == old(View(x))
    {
      if Current(id, version) {
        pending := pending - {id};
        mutationEpochs := mutationEpochs[id := Get(mutationEpochs, id).GetOr(0) + 1];
      }
      Publish();
    }

    method Remove(id: string)
      modifies this
      ensures UpToDate() && wanted == old(wanted) - {id} && disposed == old(disposed)
      ensures View(id) == old(View(id)).Remove()
      ensures forall x: string :: x != id ==> View(x) == old(View(x))
    {
      Retire(id);
      ForgetSession(id);
      Publish();
    }

    method Retire(id: string)
      modifies `versions, `wanted
      ensures wanted == old(wanted) - {id}
      ensures View(id) == old(View(id)).(version := Some(old(View(id)).Version() + 1), wanted := false)
      ensures forall x: string :: x != id ==> View(x) == old(View(x))
    {
      versions := versions[id := Get(versions, id).GetOr(0) + 1];
      wanted := wanted - {id};
    }

    method ForgetSession(id: string)
      modifies `snapshots, `recoveryErrors, `attention, `pending, `errors, `cursors, `revisions,
               `successfulMutationFloors, `requestRevisions, `mutationEpochs, `hydrateEpochs
      ensures var c := old(View(id));
        View(id) == Cell(c.disposed, c.wanted, None, None, false, None, None, c.version, None, None, None, None, None, None)
      ensures forall x: string :: x != id ==> View(x) == old(View(x))
    {
      ForgetPublished(id);
      ForgetNumbers(id);
    }

    method ForgetPublished(id: string)
      modifies `snapshots, `recoveryErrors, `attention, `pending, `errors
      ensures View(id) == old(View(id)).(
        snapshot := None, recoveryError := None, attention := None, pending := false, error := None)
      ensures forall x: string :: x != id ==> View(x) == old(View(x))
    {
      ForgetProjection(id);
      ForgetMutations(id);
    }

    method ForgetNumbers(id: string)
      modifies `cursors, `revisions, `successfulMutationFloors, `requestRevisions, `mutationEpochs, `hydrateEpochs
      ensures View(id) == old(View(id)).(
        cursor := None, revision := None, requestRevision := None, mutationEpoch := None,
        floor := None, hydrateEpoch := None)
      ensures forall x: string :: x != id ==> View(x) == old(View(x))
    {
      ForgetCounters(id);
      ForgetEpochs(id);
    }

    method ForgetProjection(id: string)
      modifies `snapshots, `recoveryErrors, `attention
      ensures View(id) == old(View(id)).(snapshot := None, recoveryError := None, attention := None)
      ensures forall x: string :: x != id ==> View(x) == old(View(x))
    {
      snapshots := snapshots - {id};
      recoveryErrors := recoveryErrors - {id};
      attention := attention - {id};
    }

    method ForgetMutations(id: string)
      modifies `pending, `errors
      ensures View(id) == old(View(id)).(pending := false, error := None)
      ensures forall x: string :: x != id ==> View(x) == old(View(x))
    {
      pending := pending - {id};
      errors := errors - {id};
    }

    method ForgetCounters(id: string)
      modifies `cursors, `revisions, `successfulMutationFloors
      ensures View(id) == old(View(id)).(cursor := None, revision := None, floor := None)
      ensures forall x: string :: x != id ==> View(x) == old(View(x))
    {
      cursors := cursors - {id};
      revisions := revisions - {id};
      successfulMutationFloors := successfulMutationFloors - {id};
    }

    method ForgetEpochs(id: string)
      modifies `requestRevisions, `mutationEpochs, `hydrateEpochs
      ensures View(id) == old(View(id)).(requestRevision := None, mutationEpoch := None, hydrateEpoch := None)
      ensures forall x: string :: x != id ==> View(x) == old(View(x))
    {
      requestRevisions := requestRevisions - {id};
      mutationEpochs := mutationEpochs - {id};
      hydrateEpochs := hydrateEpochs - {id};
    }

    method Dispose()
      modifies this
      ensures UpToDate() && published == ClientState(map[], map[], {}, map[])
      ensures forall x: string :: View(x) == old(View(x)).Dispose()
    {
      disposed := true;
      wanted := {};
      ClearProjection();
      ClearCounters();
      Publish();
    }

    method ClearProjection()
      modifies `snapshots, `attention, `pending, `errors, `recoveryErrors
      ensures snapshots == map[] && attention == map[] && pending == {} && errors == map[] && recoveryErrors == map[]
      ensures forall x: string :: View(x) == old(View(x)).(
        snapshot := None, attention := None, pending := false, error := None, recoveryError := None)
    {
      snapshots, attention, pending, errors, recoveryErrors := map[], map[], {}, map[], map[];
    }

    method ClearCounters()
      modifies `hydrateEpochs, `revisions, `requestRevisions, `mutationEpochs, `successfulMutationFloors
      ensures forall x: string :: View(x) == old(View(x)).(
        hydrateEpoch := None, revision := None, requestRevision := None, mutationEpoch := None, floor := None)
    {
      hydrateEpochs, revisions := map[], map[];
      requestRevisions, mutationEpochs, successfulMutationFloors := map[], map[], map[];
    }

    method ApplyAuthoritative(id: string, session: Read)
      requires UpToDate()
      modifies this
      ensures UpToDate()
      ensures View(id) == old(View(id)).ApplyAuthoritative(session)
      ensures forall x: string :: x != id ==> View(x) == old(View(x))
    {
      if disposed || id !in wanted || id in pending {
        return;
      }
      var floor := Get(successfulMutationFloors, id);
      if floor.Some? && (session.sequence.None? || session.sequence.value <= floor.value) {
        return;
      }
      if session.sequence.Some? && session.sequence.value < Get(cursors, id).GetOr(0) {
        return;
      }
      AdvanceAndAccept(id, session);
      Publish();
    }

    predicate Current(id: string, version: nat)
      reads this
    {
      !disposed && id in wanted && Get(versions, id) == Some(version)
    }

    method ApplySnapshot(id: string, candidate: Option<Snapshot>)
      modifies `snapshots, `recoveryErrors
      ensures View(id) == old(View(id)).ApplySnapshot(candidate)
      ensures forall x: string :: x != id ==> View(x) == old(View(x))
    {
      if candidate.None? {
        return;
      }
      snapshots := snapshots[id := candidate.value];
      if candidate.value.recovery.Some? {
        recoveryErrors := recoveryErrors[id := candidate.value.recovery.value];
      } else {
        recoveryErrors := recoveryErrors - {id};
      }
    }

    method ApplyAttention(id: string, candidate: Candidate)
      modifies `attention
      ensures View(id) == old(View(id)).ApplyAttention(candidate)
      ensures forall x: string :: x != id ==> View(x) == old(View(x))
    {
      match candidate {
        case Direct(request) => attention := attention[id := request];
        case Envelope(request) => attention := attention[id := Stored(request)];
        case Items(items) =>
          var item := FirstEnvelope(items);
          if item.Some? {
            attention := attention[id := item.value];
          } else {
            attention := attention - {id};
          }
        case Malformed =>
      }
    }

    method AcceptSnapshot(id: string, session: Read)
      modifies `revisions, `snapshots, `recoveryErrors, `attention
      ensures View(id) == old(View(id)).AcceptSnapshot(session)
      ensures forall x: string :: x != id ==> View(x) == old(View(x))
    {
      revisions := revisions[id := Get(revisions, id).GetOr(0) + 1];
      ApplySnapshot(id, session.autopilot);
      ApplyAttention(id, session.interactions);
    }

    method Publish()
      modifies `published
      ensures UpToDate()
      ensures forall x: string :: View(x) == old(View(x))
    {
      published := ClientState(snapshots, attention, pending, errors + recoveryErrors);
    }
  }
}
