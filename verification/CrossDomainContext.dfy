/**
 The guest thread of a cross-domain context as a program: the commands that touch what it shares with the worker,
 fence creation and the drop.  The context has been initialised with a channel.
 */
module CrossDomainContext {
  import opened Machine
  import opened WorkerProtocol
  import opened WorkerShutdown
  import opened CrossDomainCommon

  const QUERY_RING: nat := 0
  const CHANNEL_RING: nat := 1

  const ID_TYPE_VIRTGPU_BLOB: nat := 1
  const ID_TYPE_READ_PIPE: nat := 3
  const ID_TYPE_VIRTIO_FS_BLOB: nat := 6

  datatype Identifier = Identifier(id: nat, kind: nat)

  /** The guest thread is between two calls, and what only it changes is as it was. */
  twostate predicate Back(s: CrossDomainState)
    reads s
  {
    s.Valid() && s.guest == Ready && s.turn >= old(s.turn) && s.killed == old(s.killed)
  }

  /** The guest thread's own steps since then. */
  twostate predicate Asked(s: CrossDomainState, steps: seq<GuestStep>)
    reads s
  {
    s.guestDid == old(s.guestDid) + steps
  }

  /** What the guest thread finds after the others' share of its next turn. */
  function Found(s: CrossDomainState): State
    reads s
  {
    AfterOthers(false, s.View(), TurnOf(s.script, s.turn).others)
  }

  // ---------------------------------------------------------------------------
  // Single steps
  // ---------------------------------------------------------------------------

  /** A job goes to the end of the queue. */
  method SubmitTheFence(s: CrossDomainState, fence: Fence)
    requires s.Valid() && s.guest == Ready
    modifies s
    ensures s.Valid() && s.turn == old(s.turn)
    ensures s.View() == old(s.View()).(queue := old(s.jobs) + [HandleFence(fence)],
            submitted := old(s.submitted) + [fence])
    ensures Asked(s, [SubmitFence(fence)])
  {
    hide CrossDomainState.LeadsTo, AfterOthers;
    ghost var before := s.View();
    s.jobs := s.jobs + [HandleFence(fence)];
    s.submitted := s.submitted + [fence];
    s.Record(before, Guest(SubmitFence(fence)));
  }

  method QueueEvent(s: CrossDomainState, id: nat)
    requires s.Valid() && s.guest == Ready && id in s.items && s.items[id] == EventItem
    modifies s
    ensures s.Valid() && s.turn == old(s.turn)
    ensures s.View() == old(s.View()).(queue := old(s.jobs) + [AddReadEvent(id)], announced := old(s.announced) + {id},
            guest := OwesResample)
    ensures Asked(s, [AnnounceEvent(id)])
  {
    hide CrossDomainState.LeadsTo, AfterOthers;
    ghost var before := s.View();
    s.jobs := s.jobs + [AddReadEvent(id)];
    s.announced := s.announced + {id};
    s.guest := OwesResample;
    s.Record(before, Guest(AnnounceEvent(id)));
  }

  method QueuePipe(s: CrossDomainState, id: nat)
    requires s.Valid() && s.guest == Ready
    modifies s
    ensures s.Valid() && s.turn == old(s.turn)
    ensures s.View() == old(s.View()).(queue := old(s.jobs) + [AddReadPipe(id)], announced := old(s.announced) + {id},
            guest := OwesResample)
    ensures Asked(s, [AnnouncePipe(id)])
  {
    hide CrossDomainState.LeadsTo, AfterOthers;
    ghost var before := s.View();
    s.jobs := s.jobs + [AddReadPipe(id)];
    s.announced := s.announced + {id};
    s.guest := OwesResample;
    s.Record(before, Guest(AnnouncePipe(id)));
  }

  method RaiseResample(s: CrossDomainState)
    requires s.Valid() && s.guest == OwesResample
    modifies s
    ensures Back(s) && s.resample > 0
    ensures s.announced == old(s.announced) && s.submitted == old(s.submitted)
    ensures s.View() == old(Found(s)).(resample := old(Found(s)).resample + 1, guest := Ready)
    ensures Asked(s, [SignalResample])
  {
    hide CrossDomainState.LeadsTo, AfterOthers;
    var t := s.TakeTurn(false);
    ghost var before := s.View();
    s.resample := s.resample + 1;
    s.guest := Ready;
    s.Record(before, Guest(SignalResample));
  }

  /** A new item under the next id. */
  method FileItem(s: CrossDomainState, item: Item) returns (id: nat)
    requires s.Valid() && s.guest == Ready
    modifies s
    ensures s.Valid() && s.turn == old(s.turn) && id == old(s.NextItemId(item))
    ensures s.View() == old(s.View()).(items := old(s.items)[id := item])
    ensures Asked(s, [InsertItem(id, item)])
  {
    hide CrossDomainState.LeadsTo, AfterOthers;
    ghost var before := s.View();
    id := s.AddItem(item);
    s.Record(before, Guest(InsertItem(id, item)));
  }

  method InsertTheItem(s: CrossDomainState, id: nat, item: Item)
    requires s.Valid() && s.guest == Ready
    modifies s
    ensures s.Valid() && s.turn == old(s.turn) && s.readPipeId == old(s.readPipeId)
    ensures s.View() == old(s.View()).(items := old(s.items)[id := item])
    ensures Asked(s, [InsertItem(id, item)])
  {
    hide CrossDomainState.LeadsTo, AfterOthers;
    ghost var before := s.View();
    s.items := s.items[id := item];
    s.Record(before, Guest(InsertItem(id, item)));
  }

  method TakeItem(s: CrossDomainState, id: nat)
    requires s.Valid() && s.guest == Ready
    modifies s
    ensures s.Valid() && s.turn == old(s.turn) && s.readPipeId == old(s.readPipeId)
    ensures s.View() == old(s.View()).(items := old(s.items) - {id})
    ensures Asked(s, [RemoveItem(id)])
  {
    hide CrossDomainState.LeadsTo, AfterOthers;
    ghost var before := s.View();
    s.items := s.items - {id};
    s.Record(before, Guest(RemoveItem(id)));
  }

  // ---------------------------------------------------------------------------
  // Fences and events
  // ---------------------------------------------------------------------------

  /** A fence of the query ring is signalled at once; one of the channel ring becomes a job for the worker. */
  method ContextCreateFence(s: CrossDomainState, fence: Fence) returns (outcome: Outcome, signalled: bool)
    requires s.Valid() && s.guest == Ready
    modifies s
    ensures Back(s) && s.announced == old(s.announced)
    ensures outcome == if fence.ringIdx in {QUERY_RING, CHANNEL_RING} then Ok else Err(WithContext)
    ensures signalled == (fence.ringIdx == QUERY_RING)
    ensures s.submitted == if fence.ringIdx == CHANNEL_RING then old(s.submitted) + [fence] else old(s.submitted)
    ensures fence.ringIdx == CHANNEL_RING ==> s.jobs != [] && s.jobs[|s.jobs| - 1] == HandleFence(fence)
    ensures s.View() ==
            if fence.ringIdx == CHANNEL_RING then
              old(Found(s)).(queue := old(Found(s)).queue + [HandleFence(fence)],
                submitted := old(s.submitted) + [fence])
            else old(s.View())
  {
    hide CrossDomainState.LeadsTo, AfterOthers;
    if fence.ringIdx == QUERY_RING {
      return Ok, true;
    }
    if fence.ringIdx == CHANNEL_RING {
      var t := s.TakeTurn(false);
      SubmitTheFence(s, fence);
      return Ok, false;
    }
    return Err(WithContext), false;
  }

  /** The guest wants to read an event: its registration is queued, and the worker is made to look at the queue. */
  method ReadEventNew(s: CrossDomainState, id: nat) returns (outcome: Outcome)
    requires s.Valid() && s.guest == Ready
    modifies s
    ensures Back(s) && s.submitted == old(s.submitted)
    ensures outcome == Ok ==> s.announced == old(s.announced) + {id} && s.resample > 0
    ensures outcome != Ok ==> s.announced == old(s.announced)
    // Each error if and only if its cause was found.
    ensures outcome in {Ok, Err(InvalidItemId), Err(InvalidItemType)}
    ensures outcome == Err(InvalidItemId) <==> id !in old(Found(s)).items
    ensures outcome == Err(InvalidItemType) <==> id in old(Found(s)).items && old(Found(s)).items[id] != EventItem
    ensures outcome != Ok ==> s.View() == old(Found(s))
    ensures Asked(s, if outcome == Ok then [AnnounceEvent(id), SignalResample] else [])
  {
    hide CrossDomainState.Valid, AfterOthers;
    var t := s.TakeTurn(false);
    if id !in s.items {
      return Err(InvalidItemId);
    }
    if s.items[id] != EventItem {
      return Err(InvalidItemType);
    }
    QueueEvent(s, id);
    RaiseResample(s);
    outcome := Ok;
  }

  // ---------------------------------------------------------------------------
  // send
  // ---------------------------------------------------------------------------

  /** At most one of the first `n` identifiers is a read pipe, and it is `pipe`. */
  predicate OnlyPipe(identifiers: seq<Identifier>, n: nat, pipe: Option<nat>)
    requires n <= |identifiers|
  {
    && (pipe.Some? ==> pipe.value < n)
    && forall k :: 0 <= k < n ==> (identifiers[k].kind == ID_TYPE_READ_PIPE <==> pipe == Some(k))
  }

  /**
   A message for the host.  A read pipe in it is created here, under the id that the guest expected; its registration is
   queued after the message has gone, and the worker is made to look at the queue.  A message that fails announces
   nothing.
   */
  method Send(s: CrossDomainState, identifiers: seq<Identifier>, numIdentifiers: nat)
    returns (outcome: Outcome, pipe: Option<nat>)
    requires s.Valid() && s.guest == Ready && |identifiers| == MAX_IDENTIFIERS
    modifies s
    ensures Back(s) && s.submitted == old(s.submitted)
    ensures outcome == Ok ==>
              && numIdentifiers <= MAX_IDENTIFIERS && OnlyPipe(identifiers, numIdentifiers, pipe)
              && (forall k :: 0 <= k < numIdentifiers ==>
                    identifiers[k].kind in {ID_TYPE_VIRTGPU_BLOB, ID_TYPE_READ_PIPE, ID_TYPE_VIRTIO_FS_BLOB})
              && (pipe.Some? ==> identifiers[pipe.value].id == old(s.NextItemId(ReadPipe)) && s.resample > 0)
              && s.announced == old(s.announced) + (if pipe.Some? then {identifiers[pipe.value].id} else {})
    ensures outcome != Ok ==> s.announced == old(s.announced)
    // When nothing interferes and no call fails, what is accepted is exactly what can be sent.
    ensures old(s.turn) == |s.script| ==>
              && (outcome == Ok <==> Sendable(old(s.items), old(s.NextItemId(ReadPipe)), identifiers, numIdentifiers))
              && (outcome == Ok ==>
                    s.items == ItemsAfter(old(s.items), old(s.NextItemId(ReadPipe)), identifiers, numIdentifiers))
  {
    hide CrossDomainState.Valid, AfterOthers, ItemsAfter, CanSend;
    if numIdentifiers > MAX_IDENTIFIERS {
      return Err(WithContext), None;
    }
    outcome, pipe := TakeIdentifiers(s, identifiers, numIdentifiers);
    if outcome != Ok { return; }
    QuietFound(s);
    var t := s.TakeTurn(false);
    if t.fails {
      return Err(SystemCallFailed), pipe;
    }
    if pipe.Some? {
      QueuePipe(s, identifiers[pipe.value].id);
      QuietFound(s);
      RaiseResample(s);
    }
    outcome := Ok;
  }

  /** The identifiers of a message, one after the other, up to the first that is refused. */
  method TakeIdentifiers(s: CrossDomainState, identifiers: seq<Identifier>, numIdentifiers: nat)
    returns (outcome: Outcome, pipe: Option<nat>)
    requires s.Valid() && s.guest == Ready && numIdentifiers <= |identifiers| == MAX_IDENTIFIERS
    modifies s
    ensures Back(s) && s.submitted == old(s.submitted) && s.announced == old(s.announced)
    ensures outcome == Ok ==>
              && OnlyPipe(identifiers, numIdentifiers, pipe)
              && (forall k :: 0 <= k < numIdentifiers ==>
                    identifiers[k].kind in {ID_TYPE_VIRTGPU_BLOB, ID_TYPE_READ_PIPE, ID_TYPE_VIRTIO_FS_BLOB})
              && (pipe.Some? ==> identifiers[pipe.value].id == old(s.NextItemId(ReadPipe)))
    ensures old(s.turn) == |s.script| ==>
              && s.turn == |s.script|
              && (outcome == Ok <==> Sendable(old(s.items), old(s.NextItemId(ReadPipe)), identifiers, numIdentifiers))
              && (outcome == Ok ==>
                    s.items == ItemsAfter(old(s.items), old(s.NextItemId(ReadPipe)), identifiers, numIdentifiers))
  {
    hide CrossDomainState.Valid, AfterOthers;
    pipe := None;
    ghost var items, next, quiet := s.items, s.NextItemId(ReadPipe), s.turn == |s.script|;
    for i := 0 to numIdentifiers
      invariant Back(s) && s.submitted == old(s.submitted) && s.announced == old(s.announced)
      invariant OnlyPipe(identifiers, i, pipe)
      invariant forall k :: 0 <= k < i ==>
                identifiers[k].kind in {ID_TYPE_VIRTGPU_BLOB, ID_TYPE_READ_PIPE, ID_TYPE_VIRTIO_FS_BLOB}
      invariant if pipe.Some? then identifiers[pipe.value].id == next else s.NextItemId(ReadPipe) == next
      invariant quiet ==> s.turn == |s.script| && s.items == ItemsAfter(items, next, identifiers, i)
      invariant quiet ==> forall k :: 0 <= k < i ==>
                CanSend(ItemsAfter(items, next, identifiers, k), next, identifiers, k)
    {
      QuietFound(s);
      outcome := TakeIdentifier(s, identifiers[i], pipe.Some?);
      if outcome != Ok {
        assert quiet ==> !CanSend(ItemsAfter(items, next, identifiers, i), next, identifiers, i);
        return;
      }
      if identifiers[i].kind == ID_TYPE_READ_PIPE {
        pipe := Some(i);
      }
    }
    outcome := Ok;
  }

  /** The item table after the first `n` identifiers of a message: a read pipe is added, and files are taken out. */
  function ItemsAfter(items: map<nat, Item>, next: nat, identifiers: seq<Identifier>, n: nat): map<nat, Item>
    requires n <= |identifiers|
  {
    if n == 0 then items
    else
      var before, identifier := ItemsAfter(items, next, identifiers, n - 1), identifiers[n - 1];
      if identifier.kind == ID_TYPE_READ_PIPE then before[next := ReadPipe]
      else if identifier.kind == ID_TYPE_VIRTIO_FS_BLOB then before - {identifier.id}
      else before
  }

  /** Identifier `k` can be sent: a blob, the first read pipe under the id that it gets, or a file that is there. */
  predicate CanSend(items: map<nat, Item>, next: nat, identifiers: seq<Identifier>, k: nat)
    requires k < |identifiers|
  {
    var identifier := identifiers[k];
    || identifier.kind == ID_TYPE_VIRTGPU_BLOB
    || (&& identifier.kind == ID_TYPE_READ_PIPE && identifier.id == next
        && forall j :: 0 <= j < k ==> identifiers[j].kind != ID_TYPE_READ_PIPE)
    || (identifier.kind == ID_TYPE_VIRTIO_FS_BLOB && identifier.id in items && items[identifier.id] == RegularFile)
  }

  predicate Sendable(items: map<nat, Item>, next: nat, identifiers: seq<Identifier>, n: nat) {
    n <= MAX_IDENTIFIERS && n <= |identifiers|
    && forall k :: 0 <= k < n ==> CanSend(ItemsAfter(items, next, identifiers, k), next, identifiers, k)
  }

  /** An item is still there, and as it was, unless the message takes it out as a file or puts its read pipe there. */
  lemma {:induction false} ItemsAfterAt(items: map<nat, Item>, next: nat, identifiers: seq<Identifier>, n: nat, id: nat)
    requires n <= |identifiers|
    ensures (forall k :: 0 <= k < n ==>
               && (identifiers[k].kind == ID_TYPE_VIRTIO_FS_BLOB ==> identifiers[k].id != id)
               && (identifiers[k].kind == ID_TYPE_READ_PIPE ==> next != id)) ==>
            var after := ItemsAfter(items, next, identifiers, n);
            (id in after <==> id in items) && (id in items ==> after[id] == items[id])
  {
    if n > 0 {
      ItemsAfterAt(items, next, identifiers, n - 1, id);
    }
  }

  /** No file that comes out of the table was put there or touched by the message before. */
  lemma {:induction false} FileUntouched(items: map<nat, Item>, next: nat, identifiers: seq<Identifier>, n: nat,
                                         id: nat)
    requires n <= |identifiers|
    ensures var after := ItemsAfter(items, next, identifiers, n);
            id in after && after[id] == RegularFile ==>
              && id in items && items[id] == RegularFile
              && forall k :: 0 <= k < n ==>
                   && (identifiers[k].kind == ID_TYPE_VIRTIO_FS_BLOB ==> identifiers[k].id != id)
                   && (identifiers[k].kind == ID_TYPE_READ_PIPE ==> next != id)
  {
    if n > 0 {
      FileUntouched(items, next, identifiers, n - 1, id);
    }
  }

  /**
   What can be sent, without the table as it changes: not too many identifiers, of kinds that are accepted, at most one
   read pipe, under the id that it gets, and files that are there, each once and not where the pipe goes.
   */
  lemma SendableIff(items: map<nat, Item>, next: nat, identifiers: seq<Identifier>, n: nat)
    requires n <= |identifiers|
    ensures Sendable(items, next, identifiers, n) <==>
            && n <= MAX_IDENTIFIERS
            && (forall k :: 0 <= k < n ==>
                  && identifiers[k].kind in {ID_TYPE_VIRTGPU_BLOB, ID_TYPE_READ_PIPE, ID_TYPE_VIRTIO_FS_BLOB}
                  && (identifiers[k].kind == ID_TYPE_READ_PIPE ==> identifiers[k].id == next)
                  && (identifiers[k].kind == ID_TYPE_VIRTIO_FS_BLOB ==>
                        identifiers[k].id in items && items[identifiers[k].id] == RegularFile))
            && (forall j, k :: 0 <= j < k < n ==> Compatible(identifiers[j], identifiers[k], next))
  {
    forall k | 0 <= k < n
      ensures CanSend(ItemsAfter(items, next, identifiers, k), next, identifiers, k) <==>
              && identifiers[k].kind in {ID_TYPE_VIRTGPU_BLOB, ID_TYPE_READ_PIPE, ID_TYPE_VIRTIO_FS_BLOB}
              && (identifiers[k].kind == ID_TYPE_READ_PIPE ==> identifiers[k].id == next)
              && (identifiers[k].kind == ID_TYPE_VIRTIO_FS_BLOB ==>
                    identifiers[k].id in items && items[identifiers[k].id] == RegularFile)
              && forall j :: 0 <= j < k ==> Compatible(identifiers[j], identifiers[k], next)
    {
      ItemsAfterAt(items, next, identifiers, k, identifiers[k].id);
      FileUntouched(items, next, identifiers, k, identifiers[k].id);
    }
  }

  /** Two identifiers can go in one message, in this order. */
  predicate Compatible(earlier: Identifier, later: Identifier, next: nat) {
    && (later.kind == ID_TYPE_READ_PIPE ==> earlier.kind != ID_TYPE_READ_PIPE)
    && (later.kind == ID_TYPE_VIRTIO_FS_BLOB ==>
          && (earlier.kind == ID_TYPE_VIRTIO_FS_BLOB ==> earlier.id != later.id)
          && (earlier.kind == ID_TYPE_READ_PIPE ==> next != later.id))
  }

  /** Once the script is used up, the guest thread finds everything as it left it. */
  lemma QuietFound(s: CrossDomainState)
    ensures s.turn == |s.script| ==> Found(s) == s.View() && !TurnOf(s.script, s.turn).fails
  {
  }

  /** One identifier of a message; `hasPipe` if an earlier one was a read pipe. */
  method TakeIdentifier(s: CrossDomainState, identifier: Identifier, hasPipe: bool) returns (outcome: Outcome)
    requires s.Valid() && s.guest == Ready
    modifies s
    ensures Back(s) && s.submitted == old(s.submitted) && s.announced == old(s.announced)
    ensures outcome == Ok ==>
              && identifier.kind in {ID_TYPE_VIRTGPU_BLOB, ID_TYPE_READ_PIPE, ID_TYPE_VIRTIO_FS_BLOB}
              && (identifier.kind == ID_TYPE_READ_PIPE ==>
                    !hasPipe && identifier.id == old(s.NextItemId(ReadPipe)) && identifier.id in s.items
                      && s.items[identifier.id] == ReadPipe)
              && (identifier.kind == ID_TYPE_VIRTIO_FS_BLOB ==> identifier.id !in s.items)
    ensures outcome == Ok && identifier.kind != ID_TYPE_READ_PIPE ==> s.readPipeId == old(s.readPipeId)
    ensures s.turn == NextTurn(s, old(s.turn))
    // Each kind has its own causes of refusal, and no other.
    ensures
      var items, fails, next := old(Found(s)).items, TurnOf(s.script, old(s.turn)).fails, old(s.NextItemId(ReadPipe));
      && (identifier.kind == ID_TYPE_VIRTGPU_BLOB ==>
            (outcome == Ok <==> !fails) && s.View() == old(Found(s)))
      && (identifier.kind == ID_TYPE_READ_PIPE ==>
            && (outcome == Ok <==> !hasPipe && !fails && identifier.id == next)
            && s.View() == if hasPipe || fails then old(Found(s)) else old(Found(s)).(items := items[next := ReadPipe]))
      && (identifier.kind == ID_TYPE_VIRTIO_FS_BLOB ==>
            && (outcome == Ok <==> identifier.id in items && items[identifier.id] == RegularFile)
            && s.View() == old(Found(s)).(items := items - {identifier.id}))
  {
    hide CrossDomainState.Valid, AfterOthers;
    var t := s.TakeTurn(false);
    if identifier.kind == ID_TYPE_VIRTGPU_BLOB {
      // The resource, its handle and the copy of the descriptor are not part of this model.
      outcome := if t.fails then Err(InvalidResourceId) else Ok;
    } else if identifier.kind == ID_TYPE_READ_PIPE {
      if hasPipe {
        return Err(WithContext);
      }
      if t.fails {
        return Err(SystemCallFailed);
      }
      var id := FileItem(s, ReadPipe);
      outcome := if id != identifier.id then Err(InvalidItemId) else Ok;
    } else if identifier.kind == ID_TYPE_VIRTIO_FS_BLOB {
      var isFile := identifier.id in s.items && s.items[identifier.id] == RegularFile;
      TakeItem(s, identifier.id);
      outcome := if isFile then Ok else Err(InvalidItemId);
    } else {
      outcome := Err(InvalidItemType);
    }
  }

  /**
   The guest writes to a pipe or an event: the item stays in the table unless the guest hangs up or the write fails.
   */
  method Write(s: CrossDomainState, id: nat, length: nat, hangUp: bool) returns (outcome: Outcome)
    requires s.Valid() && s.guest == Ready
    modifies s
    ensures Back(s) && s.submitted == old(s.submitted) && s.announced == old(s.announced)
    ensures outcome == Ok ==> if hangUp then id !in s.items else id in s.items && s.items[id] in {WritePipe, EventItem}
    ensures outcome != Ok ==> id !in s.items
    // Each error if and only if its cause was found: no such item, one that cannot be written, a length that an event
    // does not take, or a call that fails.  Nothing else changes.
    ensures outcome in {Ok, Err(InvalidItemId), Err(InvalidItemType), Err(InvalidWriteLength), Err(SystemCallFailed)}
    ensures
      var items := old(Found(s)).items;
      && (outcome == Err(InvalidItemId) <==> id !in items)
      && (outcome == Err(InvalidItemType) <==> id in items && items[id] != WritePipe && items[id] != EventItem)
      && (outcome == Err(InvalidWriteLength) <==> id in items && items[id] == EventItem && length != 8)
      && (outcome == Err(SystemCallFailed) <==>
            && id in items && TurnOf(s.script, old(s.turn)).fails
            && ((items[id] == EventItem && length == 8) || (items[id] == WritePipe && length > 0)))
      && s.View() == old(Found(s)).(items := if outcome == Ok && !hangUp then items else items - {id})
  {
    hide CrossDomainState.Valid, AfterOthers;
    var t := s.TakeTurn(false);
    if id !in s.items {
      return Err(InvalidItemId);
    }
    var item := s.items[id];
    TakeItem(s, id);
    if item !in {WritePipe, EventItem} {
      return Err(InvalidItemType);
    }
    if item == EventItem && length != 8 {
      return Err(InvalidWriteLength);
    }
    if t.fails && (item == EventItem || length != 0) {
      return Err(SystemCallFailed);
    }
    if !hangUp {
      InsertTheItem(s, id, item);
    }
    outcome := Ok;
  }

  // ---------------------------------------------------------------------------
  // Sentinels
  // ---------------------------------------------------------------------------

  /** Waits while the worker holds the manager's lock; None if it does so until the script ends. */
  method LockManager(s: CrossDomainState) returns (locked: bool, fails: bool)
    requires s.Valid() && s.guest == Ready
    modifies s
    ensures Back(s) && s.submitted == old(s.submitted) && s.announced == old(s.announced)
    ensures locked == !HoldsManager(s.pc) && (!locked ==> s.turn == |s.script|)
    ensures s.View() == AfterTurns(false, old(s.View()), s.script, old(s.turn), s.turn) && Asked(s, [])
    ensures fails == LastFails(s, old(s.turn), s.turn)
  {
    hide AfterOthers;
    var t := s.TakeTurn(false);
    while HoldsManager(s.pc) && s.turn < |s.script|
      invariant Back(s) && s.submitted == old(s.submitted) && s.announced == old(s.announced) && Asked(s, [])
      invariant s.View() == AfterTurns(false, old(s.View()), s.script, old(s.turn), s.turn)
      invariant t.fails == LastFails(s, old(s.turn), s.turn)
      decreases |s.script| - s.turn
    {
      t := s.TakeTurn(false);
    }
    locked, fails := !HoldsManager(s.pc), t.fails;
  }

  /**
   A watcher of a new id, running; an id that the manager knows is refused before anything else, and without a virtiofs
   lookup nothing can be watched.
   */
  method CreateTheWatcher(s: CrossDomainState, id: nat, hasLookup: bool, fails: bool) returns (outcome: Outcome)
    requires s.Valid() && s.guest == Ready && !HoldsManager(s.pc)
    modifies s
    ensures s.Valid() && s.turn == old(s.turn)
    ensures outcome == if id in old(s.watchers) then Err(AlreadyInUse)
                       else if !hasLookup then Err(InvalidItemId)
                       else if fails then Err(SystemCallFailed) else Ok
    ensures s.View() == if outcome == Ok then
            old(s.View()).(watchers := old(s.watchers)[id := false], guest := CreatingWatcher(id)) else old(s.View())
    ensures Asked(s, if outcome == Ok then [CreateWatcher(id)] else [])
  {
    hide CrossDomainState.LeadsTo, AfterOthers;
    if id in s.watchers {
      return Err(AlreadyInUse);
    }
    if !hasLookup {
      return Err(InvalidItemId);
    }
    if fails {
      return Err(SystemCallFailed);
    }
    ghost var before := s.View();
    s.watchers := s.watchers[id := false];
    s.guest := CreatingWatcher(id);
    s.Record(before, Guest(CreateWatcher(id)));
    outcome := Ok;
  }

  method QueueSentinel(s: CrossDomainState)
    requires s.Valid() && s.guest.CreatingWatcher?
    modifies s
    ensures Back(s) && s.submitted == old(s.submitted) && s.announced == old(s.announced)
    ensures s.jobs != [] && s.jobs[|s.jobs| - 1] == AddSentinel(old(s.guest).id) && Asked(s, [QueueWatcher])
  {
    hide CrossDomainState.LeadsTo, AfterOthers;
    var t := s.TakeTurn(false);
    ghost var before := s.View();
    s.jobs := s.jobs + [AddSentinel(s.guest.id)];
    s.guest := Ready;
    s.Record(before, Guest(QueueWatcher));
  }

  method ShutWatcher(s: CrossDomainState, id: nat)
    requires s.Valid() && s.guest == Ready && !HoldsManager(s.pc) && id in s.watchers
    modifies s
    ensures s.Valid() && s.turn == old(s.turn)
    ensures s.View() == old(s.View()).(watchers := old(s.watchers)[id := true]) && Asked(s, [DestroyWatcher(id)])
  {
    hide CrossDomainState.LeadsTo, AfterOthers;
    ghost var before := s.View();
    s.watchers := s.watchers[id := true];
    s.Record(before, Guest(DestroyWatcher(id)));
  }

  /** The creation of watcher `id` turns out this way in `s`, each error if and only if its cause is the first. */
  predicate Decides(s: State, id: nat, hasLookup: bool, fails: bool, outcome: Outcome) {
    && (outcome == Err(AlreadyInUse) <==> id in s.watchers)
    && (outcome == Err(InvalidItemId) <==> id !in s.watchers && !hasLookup)
    && (outcome == Err(SystemCallFailed) <==> id !in s.watchers && hasLookup && fails)
  }

  /** A new sentinel: its watcher, and then its registration. */
  method AtomicMemorySentinelNew(s: CrossDomainState, id: nat, hasLookup: bool) returns (outcome: Option<Outcome>)
    requires s.Valid() && s.guest == Ready
    modifies s
    ensures Back(s) && s.submitted == old(s.submitted) && s.announced == old(s.announced)
    ensures outcome == Some(Ok) ==> s.jobs != [] && s.jobs[|s.jobs| - 1] == AddSentinel(id)
    ensures outcome == Some(Err(AlreadyInUse)) ==> id in s.watchers
    ensures outcome == Some(Err(InvalidItemId)) ==> !hasLookup && id !in s.watchers
    ensures outcome == Some(Err(SystemCallFailed)) ==> hasLookup && id !in s.watchers
    ensures outcome in {None, Some(Ok), Some(Err(AlreadyInUse)), Some(Err(InvalidItemId)), Some(Err(SystemCallFailed))}
    ensures outcome == Some(Ok) ==> hasLookup
    // Decided by what the manager knows once its lock is free.
    ensures outcome.Some? ==>
              exists m :: old(s.turn) <= m <= s.turn &&
                Decides(AfterTurns(false, old(s.View()), s.script, old(s.turn), m), id, hasLookup,
                        LastFails(s, old(s.turn), m), outcome.value)
    ensures Asked(s, if outcome == Some(Ok) then [CreateWatcher(id), QueueWatcher] else [])
    ensures outcome == None ==> s.turn == |s.script|
  {
    hide CrossDomainState.Valid, AfterOthers;
    var locked, fails := LockManager(s);
    if !locked {
      return None;
    }
    ghost var m := s.turn;
    var created := CreateTheWatcher(s, id, hasLookup, fails);
    if created == Ok {
      QueueSentinel(s);
    }
    outcome := Some(created);
  }

  /** After a successful destroy the sentinel is shut down. */
  method AtomicMemorySentinelDestroy(s: CrossDomainState, id: nat) returns (outcome: Option<Outcome>)
    requires s.Valid() && s.guest == Ready
    modifies s
    ensures Back(s) && s.submitted == old(s.submitted) && s.announced == old(s.announced)
    ensures outcome == Some(Ok) ==> id in s.watchers && IsShutdown(s.View(), id)
    ensures outcome.Some? && outcome != Some(Ok) ==> outcome == Some(Err(InvalidItemId)) && id !in s.watchers
    ensures outcome.Some? ==>
              s.View() ==
              var found := AfterTurns(false, old(s.View()), s.script, old(s.turn), s.turn);
              if id in found.watchers then found.(watchers := found.watchers[id := true]) else found
    ensures outcome == None ==> s.turn == |s.script|
  {
    hide CrossDomainState.Valid, AfterOthers;
    var locked, fails := LockManager(s);
    if !locked {
      return None;
    }
    if id !in s.watchers {
      return Some(Err(InvalidItemId));
    }
    ShutWatcher(s, id);
    outcome := Some(Ok);
  }

  // ---------------------------------------------------------------------------
  // The end
  // ---------------------------------------------------------------------------

  method QueueTheFinish(s: CrossDomainState)
    requires s.Valid() && s.guest == Ready
    modifies s
    ensures s.Valid() && s.guest == Dropping && s.turn == old(s.turn)
    ensures s.submitted == old(s.submitted) && s.announced == old(s.announced)
  {
    hide CrossDomainState.LeadsTo, AfterOthers;
    ghost var before := s.View();
    s.jobs := s.jobs + [Finish];
    s.guest := Dropping;
    s.Record(before, Guest(QueueFinish));
  }

  method RaiseTheKill(s: CrossDomainState)
    requires s.Valid() && s.guest == Dropping
    modifies s
    ensures s.Valid() && s.guest == Dropped && s.killed
    ensures s.submitted == old(s.submitted) && s.announced == old(s.announced)
  {
    hide CrossDomainState.LeadsTo, AfterOthers;
    var t := s.TakeTurn(false);
    ghost var before := s.View();
    s.killed := true;
    s.guest := Dropped;
    s.Record(before, Guest(RaiseKill));
  }

  /**
   The drop of the context, up to the join.  From here on the worker has at most `StepsLeft` steps to take: in every
   continuation it is done after as many.
   */
  method Drop(s: CrossDomainState)
    requires s.Valid() && s.guest == Ready
    modifies s
    ensures s.Valid() && s.guest == Dropped && s.killed
    ensures s.submitted == old(s.submitted) && s.announced == old(s.announced)
    ensures forall after :: Runs(s.View(), after) ==> WorkerSteps(after) <= StepsLeft(s.View())
  {
    hide Runs, Run, StepsLeft, WorkerSteps;
    var t := s.TakeTurn(false);
    QueueTheFinish(s);
    RaiseTheKill(s);
    FinishesRun(INIT, s.acts);
    forall after | Runs(s.View(), after)
      ensures WorkerSteps(after) <= StepsLeft(s.View())
    {
      ShutdownBoundedFrom(s.View(), after);
    }
  }
}
