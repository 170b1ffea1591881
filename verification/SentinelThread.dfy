/** The watcher thread as a program, run against every behaviour of the guest, the shutdown and the kernel. */
module SentinelThread {
  import opened Machine
  import opened SentinelWatcher

  /** What the others do before the watcher's next step, and whether its next signal goes through. */
  datatype Turn = Turn(others: seq<Action>, ok: bool)

  /** When the script is used up, the others are quiet, and signals go through. */
  function TurnOf(script: seq<Turn>, turn: nat): Turn {
    if turn < |script| then script[turn] else Turn([], true)
  }

  /** The state after what the others do, as far as it is possible. */
  function AfterOthers(s: Watch, others: seq<Action>): Watch
    decreases |others|
  {
    if others == [] then s
    else AfterOthers(if !Own(others[0]) && Enabled(s, others[0]) then Apply(s, others[0]) else s, others[1..])
  }

  lemma {:induction false} RunAppend(s: Watch, acts: seq<Action>, a: Action)
    requires Runs(s, acts) && Enabled(Run(s, acts), a)
    ensures Runs(s, acts + [a]) && Run(s, acts + [a]) == Apply(Run(s, acts), a)
    decreases |acts|
  {
    if acts == [] {
      assert acts + [a] == [a] && [a][1..] == [];
    } else {
      RunAppend(Apply(s, acts[0]), acts[1..], a);
      assert (acts + [a])[1..] == acts[1..] + [a];
    }
  }

  class AtomicMemorySentinelThread {
    const initialValue: u32
    const script: seq<Turn>
    var turn: nat            // how much of the script is used up
    var val: u32
    var memory: u32
    var closer: Closer       // the shutdown flag is set unless this is Open
    var pc: Pc
    var seen: u32
    var signals: nat
    var announced: bool
    ghost var acts: seq<Action>

    function View(): Watch
      reads this
    {
      Watch(pc, val, memory, closer, seen, signals, announced)
    }

    /** What has happened is a run of the machine, from its start to where the fields stand now. */
    ghost predicate Valid()
      reads this
    {
      Runs(Start(initialValue), acts) && SentinelWatcher.Run(Start(initialValue), acts) == View() && turn <= |script|
    }

    constructor (v: u32, script: seq<Turn>)
      ensures Valid() && View() == Start(v) && initialValue == v && this.script == script && turn == 0 && acts == []
    {
      initialValue, this.script, turn := v, script, 0;
      val, memory, closer, pc, seen, signals, announced, acts := v, v, Open, Starting, v, 0, true, [];
    }

    /** Adds to the history the step that leads from `s` to where the fields stand now. */
    ghost method Record(s: Watch, a: Action)
      requires Runs(Start(initialValue), acts) && SentinelWatcher.Run(Start(initialValue), acts) == s
               && turn <= |script|
      requires Enabled(s, a) && View() == Apply(s, a)
      modifies this`acts
      ensures Valid() && acts == old(acts) + [a]
    {
      RunAppend(Start(initialValue), acts, a);
      acts := acts + [a];
    }

    /** The others' share of a turn, as far as it is possible; when the script is used up they are quiet. */
    method TakeTurn() returns (ok: bool)
      requires Valid()
      modifies this
      ensures Valid() && val == old(val) && seen == old(seen) && signals == old(signals)
      ensures turn == if old(turn) < |script| then old(turn) + 1 else old(turn)
      ensures pc == old(pc) || (old(pc) == Parked && pc == Loading)
      ensures old(closer) != Open ==> closer != Open
      ensures ok == TurnOf(script, old(turn)).ok && View() == AfterOthers(old(View()), TurnOf(script, old(turn)).others)
    {
      hide SentinelWatcher.Run, Runs;
      if turn == |script| {
        return true;
      }
      var others := script[turn].others;
      ok := script[turn].ok;
      turn := turn + 1;
      for i := 0 to |others|
        invariant Valid() && turn == old(turn) + 1
                  && AfterOthers(View(), others[i..]) == AfterOthers(old(View()), others)
        invariant val == old(val) && seen == old(seen) && signals == old(signals)
        invariant pc == old(pc) || (old(pc) == Parked && pc == Loading)
        invariant old(closer) != Open ==> closer != Open
      {
        var s := View();
        assert others[i..][0] == others[i] && others[i..][1..] == others[i + 1..];
        if !Own(others[i]) && Enabled(s, others[i]) {
          var s' := Apply(s, others[i]);
          memory, closer, pc, announced := s'.memory, s'.closer, s'.pc, s'.announced;
          Record(s, others[i]);
        }
      }
    }

    /** Blocks until the word differs from `val` or somebody wakes the thread; false if the script ends before that. */
    method Wait() returns (returned: bool)
      requires Valid() && pc == Comparing
      modifies this
      ensures Valid() && val == old(val) && seen == old(seen) && signals == old(signals)
      ensures turn >= old(turn) && (old(turn) < |script| ==> turn > old(turn))
      ensures if returned then pc == Loading else pc == Parked && turn == |script|
      ensures old(closer) != Open ==> closer != Open
    {
      hide SentinelWatcher.Run, Runs;
      var ok := TakeTurn();
      ghost var s := View();
      pc := if memory == val then Parked else Loading;
      Record(s, Compare);
      while pc == Parked && turn < |script|
        invariant Valid() && pc in {Parked, Loading} && turn <= |script|
        invariant val == old(val) && seen == old(seen) && signals == old(signals)
        invariant turn >= old(turn) && (old(turn) < |script| ==> turn > old(turn))
        invariant old(closer) != Open ==> closer != Open
        decreases |script| - turn
      {
        ok := TakeTurn();
      }
      returned := pc != Parked;
    }

    /** One signal on the event, at the start, in the loop or on the way out. */
    method SendSignal() returns (ok: bool)
      requires Valid() && pc in {Starting, Signalling, Leaving}
      modifies this
      ensures Valid() && val == old(val) && turn >= old(turn)
      ensures pc == if old(pc) == Starting || (old(pc) == Signalling && ok) then Comparing else Exited
      ensures seen == if old(pc) == Signalling && ok then val else old(seen)
      ensures signals == if old(pc) != Leaving && ok then old(signals) + 1 else old(signals)
      ensures ok == TurnOf(script, old(turn)).ok && turn == (if old(turn) < |script| then old(turn) + 1 else old(turn))
      ensures old(closer) != Open ==> closer != Open
    {
      hide SentinelWatcher.Run, Runs;
      ok := TakeTurn();
      ghost var s := View();
      if pc == Starting {
        pc, signals := Comparing, if ok then signals + 1 else signals;
        Record(s, Announce(ok));
      } else if pc == Leaving {
        pc := Exited;
        Record(s, Leave);
      } else {
        if ok {
          seen, signals, pc := val, signals + 1, Comparing;
        } else {
          pc := Exited;
        }
        Record(s, Signal(ok));
      }
    }

    method LoadWord()
      requires Valid() && pc == Loading
      modifies this
      ensures Valid() && pc == Checking && turn >= old(turn)
      ensures val == memory == AfterOthers(old(View()), TurnOf(script, old(turn)).others).memory
    {
      hide SentinelWatcher.Run, Runs;
      var ok := TakeTurn();
      ghost var s := View();
      val, pc := memory, Checking;
      Record(s, Load);
    }

    method CheckShutdown()
      requires Valid() && pc == Checking
      modifies this
      ensures Valid() && turn >= old(turn) && pc == if closer == Open then Signalling else Leaving
      ensures old(closer) != Open ==> pc == Leaving
    {
      hide SentinelWatcher.Run, Runs;
      var ok := TakeTurn();
      ghost var s := View();
      pc := if closer == Open then Signalling else Leaving;
      Record(s, Check);
    }

    /**
     The thread.  It ends in `Exited`, or with the script used up: parked, or about to wait.  While it is there, what it
     waits on is what its latest signal went with.
     */
    method Run()
      requires Valid() && pc == Starting
      modifies this
      ensures Valid()
      ensures pc == Exited || (pc in {Parked, Comparing} && turn == |script| && seen == val)
      // It leaves only for a shutdown, or because a signal has failed.
      ensures pc == Exited ==> closer != Open || exists i :: old(turn) <= i < turn && !script[i].ok
    {
      hide SentinelWatcher.Run, Runs, AfterOthers;
      UpToDateRun(Start(initialValue), acts);
      var ok := SendSignal();
      while turn < |script|
        invariant Valid() && pc == Comparing && seen == val
        decreases |script| - turn
      {
        var returned := Wait();
        if !returned {
          return;
        }
        LoadWord();
        CheckShutdown();
        var leaves := pc == Leaving;
        ok := SendSignal();
        if leaves || !ok {
          return;
        }
      }
    }
  }
}
