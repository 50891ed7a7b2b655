/** The thread-slot table of display.cpp: four global arrays of MAX_THREADS
    entries (liveness flags, cooperative-stop flags, argument records and
    thread handles), the spawn that claims the lowest free slot, the shutdown
    that flags and clears every live slot, and the slot release a camera
    thread performs when its loop ends.

    The pure functions over `seq<bool>` below specify the table; the class
    `ThreadTable` holds the arrays and updates them in place, and its methods
    are proved against those functions. */
module ThreadRegistry {
  import opened Wrappers
  import opened CTypes

  /** Number of slots (`MAX_THREADS`). */
  const MAX_THREADS: nat := 5
  /** Length of the `command_vars` array of an argument record. */
  const NUM_COMMAND_VARS: nat := 15

  /** An opaque `pthread_t`. */
  type Handle = nat

  /** The `command_vars` array of an argument record: exactly
      NUM_COMMAND_VARS unsigned 16-bit values. */
  type CommandVars = s: seq<uint16> | |s| == NUM_COMMAND_VARS
    witness seq(NUM_COMMAND_VARS, _ => 0)

  /** The per-slot argument record `Thread_data`. */
  datatype ThreadData = ThreadData(
    threadId: int32,
    cameraId: int32,
    commandKey: uint16,
    commandNumVars: uint8,
    commandVars: CommandVars)

  /** A zero-initialised `Thread_data` global. */
  const ZERO_DATA: ThreadData := ThreadData(0, 0, 0, 0, seq(NUM_COMMAND_VARS, _ => 0))

  // ---------------------------------------------------------------------
  // Specification of the liveness table
  // ---------------------------------------------------------------------

  /** The lowest index whose slot is not live, or None when every slot is. */
  function FirstFree(live: seq<bool>): (r: Option<nat>)
    ensures r.Some? ==> r.value < |live| && !live[r.value]
    ensures r.Some? ==> forall j :: 0 <= j < r.value ==> live[j]
    ensures r.None? <==> forall j :: 0 <= j < |live| ==> live[j]
  {
    if |live| == 0 then None
    else if !live[0] then Some(0)
    else match FirstFree(live[1..])
      case None => None
      case Some(k) => Some(k + 1)
  }

  /** Number of live slots. */
  function LiveCount(live: seq<bool>): (n: nat)
    ensures n <= |live|
  {
    if |live| == 0 then 0 else (if live[0] then 1 else 0) + LiveCount(live[1..])
  }

  /** A table with no live slot. */
  function AllFree(n: nat): (r: seq<bool>)
    ensures |r| == n && forall j :: 0 <= j < n ==> !r[j]
  {
    seq(n, _ => false)
  }

  /** The liveness table after `start_thread`: the first free slot, if there
      is one, becomes live exactly when thread creation succeeded. */
  function Claim(live: seq<bool>, created: bool): (r: seq<bool>)
    ensures |r| == |live|
    ensures FirstFree(live).Some? ==> r[FirstFree(live).value] == created
    ensures forall j :: 0 <= j < |live| && FirstFree(live) != Some(j) ==> r[j] == live[j]
  {
    match FirstFree(live)
    case None => live
    case Some(i) => if created then live[i := true] else live
  }

  /** The stop flags after the first loop of `kill_all_threads`: every live
      slot is asked to stop, every other slot keeps its flag. */
  function RequestStops(live: seq<bool>, stops: seq<bool>): (r: seq<bool>)
    requires |live| == |stops|
    ensures |r| == |stops|
    ensures forall j :: 0 <= j < |live| && live[j] ==> r[j]
    ensures forall j :: 0 <= j < |live| && !live[j] ==> r[j] == stops[j]
  {
    seq(|live|, j requires 0 <= j < |live| => live[j] || stops[j])
  }

  // ---------------------------------------------------------------------
  // Properties of the specification
  // ---------------------------------------------------------------------

  /** The table is full exactly when every slot is live. */
  lemma {:induction false} FullIffNoFreeSlot(live: seq<bool>)
    ensures LiveCount(live) == |live| <==> FirstFree(live).None?
  {
    if |live| > 0 {
      FullIffNoFreeSlot(live[1..]);
    }
  }

  /** Setting one flag changes the live count by the difference it makes. */
  lemma {:induction false} LiveCountUpdate(live: seq<bool>, i: nat, b: bool)
    requires i < |live|
    ensures LiveCount(live[i := b]) ==
            LiveCount(live) - (if live[i] then 1 else 0) + (if b then 1 else 0)
  {
    if i == 0 {
      assert live[i := b][1..] == live[1..];
    } else {
      assert live[i := b][1..] == live[1..][i - 1 := b];
      LiveCountUpdate(live[1..], i - 1, b);
    }
  }

  /** A spawn makes at most one more slot live, exactly one when a slot was
      free and creation succeeded, and never more than MAX_THREADS. */
  lemma ClaimCount(live: seq<bool>, created: bool)
    ensures LiveCount(Claim(live, created)) ==
            LiveCount(live) + (if created && FirstFree(live).Some? then 1 else 0)
    ensures LiveCount(Claim(live, created)) <= |live|
  {
    match FirstFree(live)
    case None =>
    case Some(i) =>
      if created {
        LiveCountUpdate(live, i, true);
      }
  }

  /** A spawn into a full table changes nothing. */
  lemma ClaimWhenFull(live: seq<bool>, created: bool)
    requires LiveCount(live) == |live|
    ensures Claim(live, created) == live
  {
    FullIffNoFreeSlot(live);
  }

  /** Two spawns in a row that both succeed never claim the same slot: the
      second one claims a strictly higher index, or finds the table full. */
  lemma SuccessiveClaimsDistinct(live: seq<bool>)
    requires FirstFree(live).Some?
    ensures FirstFree(Claim(live, true)).Some? ==>
            FirstFree(Claim(live, true)).value > FirstFree(live).value
  {
  }

  /** Releasing a live slot lowers the live count by exactly one. */
  lemma ReleaseCount(live: seq<bool>, tid: nat)
    requires tid < |live| && live[tid]
    ensures LiveCount(live[tid := false]) == LiveCount(live) - 1
  {
    LiveCountUpdate(live, tid, false);
  }

  /** A table with no live slot has live count zero. */
  lemma {:induction false} AllFreeCount(n: nat)
    ensures LiveCount(AllFree(n)) == 0
  {
    if n > 0 {
      assert AllFree(n)[1..] == AllFree(n - 1);
      AllFreeCount(n - 1);
    }
  }

  /** Asking the threads of a table with no live slot to stop changes no
      stop flag. */
  lemma RequestStopsOnFreeTable(stops: seq<bool>)
    ensures RequestStops(AllFree(|stops|), stops) == stops
  {
    var r := RequestStops(AllFree(|stops|), stops);
    assert forall j :: 0 <= j < |stops| ==> r[j] == stops[j];
  }

  /** Shutdown is idempotent: a second shutdown leaves the stop flags as the
      first one left them (that no slot stays live after either one is the
      `ensures` of `KillAllThreads`). */
  lemma ShutdownIdempotent(live: seq<bool>, stops: seq<bool>)
    requires |live| == |stops|
    ensures RequestStops(AllFree(|live|), RequestStops(live, stops)) == RequestStops(live, stops)
  {
    RequestStopsOnFreeTable(RequestStops(live, stops));
  }

  /** After shutdown a spawn claims slot 0 again. */
  lemma SpawnAfterShutdown(n: nat)
    requires n > 0
    ensures FirstFree(AllFree(n)) == Some(0)
  {
  }

  /** A slot's argument record after `start_thread` claims it: the caller's
      record when one is given, the slot's previous record otherwise, and in
      both cases with `thread_id` set to the slot index. */
  function ClaimedData(tdata: Option<ThreadData>, previous: ThreadData, slot: nat): (r: ThreadData)
    requires slot < MAX_THREADS
    ensures r.threadId == slot
    ensures tdata.Some? ==> r == tdata.value.(threadId := slot)
    ensures tdata.None? ==> r == previous.(threadId := slot)
  {
    (if tdata.Some? then tdata.value else previous).(threadId := slot)
  }

  // ---------------------------------------------------------------------
  // The global arrays
  // ---------------------------------------------------------------------

  class ThreadTable {
    /** `started`: liveness flag of each slot. */
    var started: array<bool>
    /** `stop_message`: cooperative-stop flag of each slot. */
    var stopMessage: array<bool>
    /** `thread_data`: argument record of each slot. */
    var threadData: array<ThreadData>
    /** `threads`: handle of each slot. */
    var threads: array<Handle>

    ghost predicate Valid()
      reads this
    {
      started.Length == MAX_THREADS && stopMessage.Length == MAX_THREADS &&
      threadData.Length == MAX_THREADS && threads.Length == MAX_THREADS &&
      started != stopMessage
    }

    /** The zero-initialised globals the program starts with. */
    constructor ()
      ensures Valid()
      ensures fresh(started) && fresh(stopMessage) && fresh(threadData) && fresh(threads)
      ensures started[..] == AllFree(MAX_THREADS) && stopMessage[..] == AllFree(MAX_THREADS)
      ensures forall j :: 0 <= j < MAX_THREADS ==> threadData[j] == ZERO_DATA && threads[j] == 0
    {
      started := new bool[MAX_THREADS](_ => false);
      stopMessage := new bool[MAX_THREADS](_ => false);
      threadData := new ThreadData[MAX_THREADS](_ => ZERO_DATA);
      threads := new Handle[MAX_THREADS](_ => 0);
    }

    /** The scan at the head of `start_thread`: the lowest index that is not
        live, or None when every slot is live. */
    method FindFreeSlot() returns (slot: Option<nat>)
      requires Valid()
      ensures slot.Some? ==> slot.value < MAX_THREADS && !started[slot.value]
      ensures slot.Some? ==> forall j :: 0 <= j < slot.value ==> started[j]
      ensures slot.None? ==> forall j :: 0 <= j < MAX_THREADS ==> started[j]
    {
      var i := 0;
      while started[i]
        invariant 0 <= i < MAX_THREADS
        invariant forall j :: 0 <= j < i ==> started[j]
        decreases MAX_THREADS - i
      {
        i := i + 1;
        if i == MAX_THREADS {
          return None;
        }
      }
      return Some(i);
    }

    /** `start_thread`: claims the first free slot, copies the caller's
        record into it (when there is one), sets its `thread_id`, clears its
        stop flag, and marks it live when creation (`created`, the outcome of
        `pthread_create`) succeeded, recording the new handle. Returns the
        claimed slot, or None when the table is full and nothing changed. */
    method StartThread(tdata: Option<ThreadData>, created: bool, handle: Handle)
      returns (slot: Option<nat>)
      requires Valid()
      modifies started, stopMessage, threadData, threads
      ensures Valid()
      ensures slot == FirstFree(old(started[..]))
      ensures started[..] == Claim(old(started[..]), created)
      ensures slot.None? ==>
                stopMessage[..] == old(stopMessage[..]) &&
                threadData[..] == old(threadData[..]) &&
                threads[..] == old(threads[..])
      ensures slot.Some? ==>
                stopMessage[..] == old(stopMessage[..])[slot.value := false] &&
                threadData[..] == old(threadData[..])[slot.value := ClaimedData(tdata, old(threadData[slot.value]), slot.value)] &&
                threads[..] == (if created then old(threads[..])[slot.value := handle] else old(threads[..]))
    {
      slot := FindFreeSlot();
      assert slot == FirstFree(started[..]) by {
        var f := FirstFree(started[..]);
        if slot.Some? && f.Some? {
          assert !(slot.value < f.value) && !(f.value < slot.value);
        }
      }
      if slot.None? {
        return;
      }
      var i := slot.value;
      threadData[i] := ClaimedData(tdata, threadData[i], i);
      stopMessage[i] := false;
      if created {
        threads[i] := handle;
        started[i] := true;
      }
    }

    /** `kill_all_threads`: sets the stop flag of every live slot, then (the
        grace-period sleep and the forced cancel being no-ops here) clears
        every live slot. */
    method KillAllThreads()
      requires Valid()
      modifies started, stopMessage
      ensures Valid()
      ensures stopMessage[..] == RequestStops(old(started[..]), old(stopMessage[..]))
      ensures started[..] == AllFree(MAX_THREADS)
    {
      for i := 0 to MAX_THREADS
        invariant started[..] == old(started[..])
        invariant forall j :: 0 <= j < i ==> stopMessage[j] == (old(started[j]) || old(stopMessage[j]))
        invariant forall j :: i <= j < MAX_THREADS ==> stopMessage[j] == old(stopMessage[j])
      {
        if started[i] {
          stopMessage[i] := true;
        }
      }
      assert stopMessage[..] == RequestStops(old(started[..]), old(stopMessage[..]));
      ghost var stops := stopMessage[..];
      for i := 0 to MAX_THREADS
        invariant stopMessage[..] == stops
        invariant forall j :: 0 <= j < i ==> !started[j]
      {
        if started[i] {
          started[i] := false;
        }
      }
      assert started[..] == AllFree(MAX_THREADS);
    }

    /** The end of `CameraThread`: the thread frees its own slot. */
    method ReleaseSlot(tid: nat)
      requires Valid() && tid < MAX_THREADS
      modifies started
      ensures Valid()
      ensures started[..] == old(started[..])[tid := false]
    {
      started[tid] := false;
    }
  }
}
