/** The command stream that a guest submits to a cross-domain context: how it is cut into commands and read. */
module CommandStream {
  import opened Machine

  const CMD_INIT: u8 := 1
  const CMD_GET_IMAGE_REQUIREMENTS: u8 := 2
  const CMD_POLL: u8 := 3
  const CMD_SEND: u8 := 4
  const CMD_WRITE: u8 := 7
  const CMD_CREATE_SENTINEL: u8 := 8
  const CMD_SIGNAL_SENTINEL: u8 := 9
  const CMD_DESTROY_SENTINEL: u8 := 10
  const CMD_CREATE_EVENT: u8 := 11
  const CMD_IMPORT_VIRTIOFS: u8 := 12
  const CMD_ASSIGN_SOCKET_UUID: u8 := 13

  // Sizes of the structures of the protocol.
  const HEADER: nat := 8
  const INIT_LEGACY: nat := 16
  const INIT_V1: nat := 20
  const INIT: nat := 36
  const SEND: nat := 352
  const READ_WRITE: nat := 24

  /** What a handler is given.  The ring index and the padding of the header are not looked at. */
  datatype Command =
    | Init(queryRing: nat, channelRing: nat, channelType: nat, uuid: seq<u8>)
    | GetImageRequirements(width: nat, height: nat, format: nat, flags: nat)
    | Poll
    | Send(numIdentifiers: nat, identifiers: seq<nat>, types: seq<nat>, sizes: seq<nat>, data: seq<u8>)
    | Write(identifier: nat, hangUp: nat, data: seq<u8>)
    | CreateSentinel(fsId: nat, handle: nat, id: nat)
    | SignalSentinel(id: nat)
    | DestroySentinel(id: nat)
    | CreateEvent(id: nat)
    | ImportVirtioFs(fsId: nat, handle: nat, id: nat)
    | AssignSocketUuid(uuid: seq<u8>, id: nat)

  const NO_UUID: seq<u8> := [0, 0, 0, 0, 0, 0, 0, 0, 0, 0, 0, 0, 0, 0, 0, 0]

  // ---------------------------------------------------------------------------
  // Reading
  // ---------------------------------------------------------------------------

  /** The `n`-byte little-endian number at `at`. */
  function Number(b: seq<u8>, at: nat, n: nat): nat
    requires at + n <= |b|
    decreases n
  {
    if n == 0 then 0 else b[at] as nat + 0x100 * Number(b, at + 1, n - 1)
  }

  function Word(b: seq<u8>, at: nat): nat
    requires at + 4 <= |b|
  {
    Number(b, at, 4)
  }

  function Words(b: seq<u8>, at: nat, count: nat): seq<nat>
    requires at + 4 * count <= |b|
  {
    seq(count, i requires 0 <= i < count => Word(b, at + 4 * i))
  }

  function CommandSize(b: seq<u8>): nat
    requires |b| >= HEADER
  {
    Number(b, 2, 2)
  }

  /** The size of the structure that a command is read as; an INIT has three, told apart by the size that it states. */
  function StructSize(cmd: u8, size: nat): Option<nat> {
    if cmd == CMD_INIT then (if size in {INIT_LEGACY, INIT_V1, INIT} then Some(size) else None)
    else if cmd == CMD_GET_IMAGE_REQUIREMENTS then Some(24)
    else if cmd == CMD_POLL then Some(HEADER)
    else if cmd == CMD_SEND then Some(SEND)
    else if cmd == CMD_WRITE then Some(READ_WRITE)
    else if cmd in {CMD_CREATE_SENTINEL, CMD_IMPORT_VIRTIOFS, CMD_ASSIGN_SOCKET_UUID} then Some(32)
    else if cmd in {CMD_SIGNAL_SENTINEL, CMD_DESTROY_SENTINEL, CMD_CREATE_EVENT} then Some(16)
    else None
  }

  /** The size of the data that follows the structure. */
  function PayloadSize(b: seq<u8>): nat
    requires |b| >= HEADER && StructSize(b[0], CommandSize(b)).Some? && |b| >= StructSize(b[0], CommandSize(b)).value
  {
    if b[0] == CMD_SEND then Word(b, 12) else if b[0] == CMD_WRITE then Word(b, 16) else 0
  }

  /** The bytes are long enough for the command that they start with. */
  predicate Covers(b: seq<u8>) {
    && |b| >= HEADER
    && StructSize(b[0], CommandSize(b)).Some?
    && |b| >= StructSize(b[0], CommandSize(b)).value
    && |b| >= StructSize(b[0], CommandSize(b)).value + PayloadSize(b)
  }

  function ReadInit(b: seq<u8>, size: nat): Command
    requires size in {INIT_LEGACY, INIT_V1, INIT} && |b| >= size
  {
    if size == INIT_LEGACY then Init(Word(b, 8), Word(b, 8), Word(b, 12), NO_UUID)
    else Init(Word(b, 8), Word(b, 12), Word(b, 16), if size == INIT_V1 then NO_UUID else b[20..36])
  }

  function Parse(b: seq<u8>): Command
    requires Covers(b)
  {
    var cmd := b[0];
    if cmd == CMD_INIT then ReadInit(b, CommandSize(b))
    else if cmd == CMD_GET_IMAGE_REQUIREMENTS then
      GetImageRequirements(Word(b, 8), Word(b, 12), Word(b, 16), Word(b, 20))
    else if cmd == CMD_POLL then Poll
    else if cmd == CMD_SEND then
      Send(Word(b, 8), Words(b, 16, MAX_IDENTIFIERS), Words(b, 128, MAX_IDENTIFIERS), Words(b, 240, MAX_IDENTIFIERS),
           b[SEND..SEND + PayloadSize(b)])
    else if cmd == CMD_WRITE then Write(Word(b, 8), Word(b, 12), b[READ_WRITE..READ_WRITE + PayloadSize(b)])
    else if cmd == CMD_CREATE_SENTINEL then CreateSentinel(Number(b, 8, 8), Number(b, 16, 8), Word(b, 24))
    else if cmd == CMD_SIGNAL_SENTINEL then SignalSentinel(Word(b, 8))
    else if cmd == CMD_DESTROY_SENTINEL then DestroySentinel(Word(b, 8))
    else if cmd == CMD_CREATE_EVENT then CreateEvent(Word(b, 8))
    else if cmd == CMD_IMPORT_VIRTIOFS then ImportVirtioFs(Number(b, 8, 8), Number(b, 16, 8), Word(b, 24))
    else AssignSocketUuid(b[8..24], Word(b, 24))
  }

  /** One command read from the front of `b`. */
  function ReadCommand(b: seq<u8>): Result<Command> {
    if |b| < HEADER then Failure(InvalidCommandBuffer)
    else if StructSize(b[0], CommandSize(b)) == None then Failure(InvalidCommand)
    else if |b| < StructSize(b[0], CommandSize(b)).value then Failure(InvalidCommandBuffer)
    else if !Covers(b) then Failure(InvalidCommandSize)
    else Success(Parse(b))
  }

  // ---------------------------------------------------------------------------
  // The wire format in numbers
  // ---------------------------------------------------------------------------

  /** The two bytes at `at`, the lower one first. */
  function Half(b: seq<u8>, at: nat): nat
    requires at + 2 <= |b|
  {
    b[at] as nat + 0x100 * b[at + 1] as nat
  }

  /** How many bytes a command takes before its data, by its code; zero for a code that means nothing. */
  function Fixed(code: u8, stated: nat): nat {
    if code == 1 then (if stated in {16, 20, 36} then stated else 0)
    else if code == 2 then 24
    else if code == 3 then 8
    else if code == 4 then 352
    else if code == 7 then 24
    else if code in {8, 12, 13} then 32
    else if code in {9, 10, 11} then 16
    else 0
  }

  /** How many bytes of data follow: SEND states them in its fourth word, WRITE in its fifth. */
  function Following(b: seq<u8>): nat
    requires |b| >= 8 && Fixed(b[0], Half(b, 2)) > 0 && |b| >= Fixed(b[0], Half(b, 2))
  {
    if b[0] == 4 then Half(b, 12) + 0x1_0000 * Half(b, 14)
    else if b[0] == 7 then Half(b, 16) + 0x1_0000 * Half(b, 18)
    else 0
  }

  lemma NumberIsHalf(b: seq<u8>, at: nat)
    ensures at + 2 <= |b| ==> Number(b, at, 2) == Half(b, at)
    ensures at + 4 <= |b| ==> Number(b, at, 4) == Half(b, at) + 0x1_0000 * Half(b, at + 2)
  {
    if at + 4 <= |b| {
      assert Number(b, at + 2, 2) == b[at + 2] as nat + 0x100 * Number(b, at + 3, 1);
      assert Number(b, at, 4) == b[at] as nat + 0x100 * (b[at + 1] as nat + 0x100 * Number(b, at + 2, 2));
    }
  }

  /** Which commands are read, which are refused, and why. */
  lemma ReadOutcomes(b: seq<u8>)
    ensures
      var unknown := |b| >= 8 && Fixed(b[0], Half(b, 2)) == 0;
      var short := |b| < 8 || |b| < Fixed(b[0], Half(b, 2));
      && (ReadCommand(b) == Failure(InvalidCommand) <==> unknown)
      && (ReadCommand(b) == Failure(InvalidCommandBuffer) <==> short)
      && (ReadCommand(b) == Failure(InvalidCommandSize) <==>
            !unknown && !short && |b| < Fixed(b[0], Half(b, 2)) + Following(b))
      && (ReadCommand(b).Failure? ==> ReadCommand(b).error in {InvalidCommand, InvalidCommandBuffer,
         InvalidCommandSize})
  {
    NumberIsHalf(b, 2);
    NumberIsHalf(b, 12);
    NumberIsHalf(b, 16);
    hide Number, Half, Parse;
  }

  /** Which code stands for which command. */
  lemma CodesOfCommands(b: seq<u8>)
    requires Covers(b)
    ensures
      var c := Parse(b);
      && (c.Init? <==> b[0] == 1) && (c.GetImageRequirements? <==> b[0] == 2) && (c.Poll? <==> b[0] == 3)
      && (c.Send? <==> b[0] == 4) && (c.Write? <==> b[0] == 7)
      && (c.CreateSentinel? <==> b[0] == 8) && (c.SignalSentinel? <==> b[0] == 9)
         && (c.DestroySentinel? <==> b[0] == 10)
      && (c.CreateEvent? <==> b[0] == 11) && (c.ImportVirtioFs? <==> b[0] == 12)
         && (c.AssignSocketUuid? <==> b[0] == 13)
  {
    hide Number;
  }

  // ---------------------------------------------------------------------------
  // The loop
  // ---------------------------------------------------------------------------

  /** How the loop ends.  `Stalled`: it does not; it reads the same command again for ever. */
  datatype End = Done | Failed(error: Error) | Stalled

  /** Call `k` of a handler succeeds, when call `refused` is the first that does not; None: all succeed. */
  predicate Agrees(refused: Option<nat>, k: nat) {
    refused == None || k < refused.value
  }

  /** The calls that are left before the one that is refused. */
  function CallsLeft(refused: Option<nat>, k: nat): nat {
    if refused.Some? && k < refused.value then refused.value - k else 0
  }

  /**
   The commands handed to handlers from call `k` on, and how it ends.  A command that states a size of zero is read
   again until its handler refuses; if that never happens, the list stops where the loop comes back to the same bytes.
   */
  function Submitted(b: seq<u8>, refused: Option<nat>, k: nat): (seq<Command>, End)
    requires refused.Some? ==> k <= refused.value
    decreases |b|, CallsLeft(refused, k)
  {
    if b == [] then ([], Done)
    else
      match ReadCommand(b)
      case Failure(e) => ([], Failed(e))
      case Success(command) =>
        var calls := if command.Poll? then [] else [command];
        if !command.Poll? && !Agrees(refused, k) then (calls, Failed(HandlerFailed))
        else if CommandSize(b) > |b| then (calls, Failed(InvalidCommandSize))
        else if CommandSize(b) == 0 && (command.Poll? || refused == None) then (calls, Stalled)
        else
          var rest := Submitted(b[CommandSize(b)..], refused, k + |calls|);
          (calls + rest.0, rest.1)
  }

  /** What is handed over in all, and how it ends, when `handed` has been handed over and `rest` is left. */
  function Outlook(handed: seq<Command>, rest: seq<u8>, refused: Option<nat>): (seq<Command>, End)
    requires refused.Some? ==> |handed| <= refused.value
  {
    (handed + Submitted(rest, refused, |handed|).0, Submitted(rest, refused, |handed|).1)
  }

  lemma OutlookStart(b: seq<u8>, refused: Option<nat>)
    ensures Outlook([], b, refused) == Submitted(b, refused, 0)
  {
    assert [] + Submitted(b, refused, 0).0 == Submitted(b, refused, 0).0;
  }

  lemma OutlookDone(handed: seq<Command>, refused: Option<nat>)
    requires refused.Some? ==> |handed| <= refused.value
    ensures Outlook(handed, [], refused) == (handed, Done)
  {
    assert handed + [] == handed;
  }

  /** One command, seen from where the loop stands. */
  lemma OutlookStep(handed: seq<Command>, rest: seq<u8>, refused: Option<nat>)
    requires rest != [] && (refused.Some? ==> |handed| <= refused.value)
    ensures ReadCommand(rest).Success? ==> |rest| >= HEADER
    ensures
      Outlook(handed, rest, refused) ==
      match ReadCommand(rest)
      case Failure(e) => (handed, Failed(e))
      case Success(command) =>
        var handed' := if command.Poll? then handed else handed + [command];
        if !command.Poll? && !Agrees(refused, |handed|) then (handed', Failed(HandlerFailed))
        else if CommandSize(rest) > |rest| then (handed', Failed(InvalidCommandSize))
        else if CommandSize(rest) == 0 && (command.Poll? || refused == None) then (handed', Stalled)
        else Outlook(handed', rest[CommandSize(rest)..], refused)
  {
    ReadHasHeader(rest);
    hide ReadCommand, CommandSize, Covers;
    assert handed + [] == handed;
    if ReadCommand(rest).Success? {
      var calls := if ReadCommand(rest).value.Poll? then [] else [ReadCommand(rest).value];
      if (calls == [] || Agrees(refused, |handed|)) && CommandSize(rest) <= |rest| {
        var more := Submitted(rest[CommandSize(rest)..], refused, |handed + calls|).0;
        assert handed + (calls + more) == (handed + calls) + more;
      }
    }
  }

  /** Runs the stream.  It stops short only where the source never would. */
  method SubmitCmd(commands: seq<u8>, refused: Option<nat>) returns (handed: seq<Command>, end: End)
    ensures (handed, end) == Submitted(commands, refused, 0)
  {
    hide ReadCommand, CommandSize, Submitted, Outlook;
    OutlookStart(commands, refused);
    handed := [];
    var rest := commands;
    while rest != []
      invariant refused.Some? ==> |handed| <= refused.value
      invariant Outlook(handed, rest, refused) == Submitted(commands, refused, 0)
      decreases |rest|, CallsLeft(refused, |handed|)
    {
      OutlookStep(handed, rest, refused);
      var read := ReadCommand(rest);
      if read.Failure? {
        return handed, Failed(read.error);
      }
      if !read.value.Poll? {
        handed := handed + [read.value];
        if !Agrees(refused, |handed| - 1) {
          return handed, Failed(HandlerFailed);
        }
      }
      var size := CommandSize(rest);
      if size > |rest| {
        return handed, Failed(InvalidCommandSize);
      }
      if size == 0 && (read.value.Poll? || refused == None) {
        return handed, Stalled;
      }
      rest := rest[size..];
    }
    OutlookDone(handed, refused);
    end := Done;
  }

  lemma ReadHasHeader(b: seq<u8>)
    ensures ReadCommand(b).Success? ==> |b| >= HEADER && Covers(b)
  {
  }

  // ---------------------------------------------------------------------------
  // Commands laid end to end
  // ---------------------------------------------------------------------------

  /** Bytes that are one command: as long as the command states, and that covers the structure and its data. */
  predicate Window(w: seq<u8>) {
    Covers(w) && |w| == CommandSize(w)
  }

  function Join(windows: seq<seq<u8>>): seq<u8>
    decreases |windows|
  {
    if windows == [] then [] else windows[0] + Join(windows[1..])
  }

  /** What the handlers ought to be given: each window read on its own. */
  function Handed(windows: seq<seq<u8>>): seq<Command>
    requires forall i :: 0 <= i < |windows| ==> Window(windows[i])
    decreases |windows|
  {
    if windows == [] then []
    else
      assert Window(windows[0]);
      (if Parse(windows[0]).Poll? then [] else [Parse(windows[0])]) + Handed(windows[1..])
  }

  lemma {:induction false} NumberLocal(w: seq<u8>, rest: seq<u8>, at: nat, n: nat)
    requires at + n <= |w|
    ensures Number(w + rest, at, n) == Number(w, at, n)
    decreases n
  {
    if n > 0 {
      NumberLocal(w, rest, at + 1, n - 1);
    }
  }

  /** Numbers in the front part of some bytes do not depend on what follows it. */
  lemma FrontNumbers(w: seq<u8>, rest: seq<u8>)
    ensures forall at, n :: 0 <= at && 0 <= n && at + n <= |w| ==> Number(w + rest, at, n) == Number(w, at, n)
  {
    forall at, n | 0 <= at && 0 <= n && at + n <= |w|
      ensures Number(w + rest, at, n) == Number(w, at, n)
    {
      NumberLocal(w, rest, at, n);
    }
  }

  /** Reading a command does not look past its own bytes. */
  lemma ReadsOwnWindow(w: seq<u8>, rest: seq<u8>)
    requires Covers(w)
    ensures Covers(w + rest) && CommandSize(w + rest) == CommandSize(w) && Parse(w + rest) == Parse(w)
  {
    hide Number;
    FrontNumbers(w, rest);
    var b, size := w + rest, CommandSize(w);
    assert b[0] == w[0];
    var n := StructSize(w[0], size).value;
    FrontSlice(w, rest, n, n + PayloadSize(w));
    if w[0] == CMD_SEND {
      assert Words(b, 16, MAX_IDENTIFIERS) == Words(w, 16, MAX_IDENTIFIERS);
      assert Words(b, 128, MAX_IDENTIFIERS) == Words(w, 128, MAX_IDENTIFIERS);
      assert Words(b, 240, MAX_IDENTIFIERS) == Words(w, 240, MAX_IDENTIFIERS);
    } else if w[0] == CMD_INIT && size == INIT {
      FrontSlice(w, rest, 20, 36);
    } else if w[0] == CMD_ASSIGN_SOCKET_UUID {
      FrontSlice(w, rest, 8, 24);
    }
  }

  lemma FrontSlice(w: seq<u8>, rest: seq<u8>, i: nat, j: nat)
    requires i <= j <= |w|
    ensures (w + rest)[i..j] == w[i..j]
  {
  }

  /**
   A list of commands laid end to end is handed over as it is, one by one and in order, as long as the handlers agree.
   Each command is read out of its own bytes alone.
   */
  lemma {:induction false} StreamHandedOver(windows: seq<seq<u8>>, k: nat)
    requires forall i :: 0 <= i < |windows| ==> Window(windows[i])
    ensures Submitted(Join(windows), None, k) == (Handed(windows), Done)
    decreases |windows|
  {
    hide Parse, Covers, CommandSize, StructSize, PayloadSize;
    if windows != [] {
      var w, rest := windows[0], Join(windows[1..]);
      assert Window(w);
      ReadsOwnWindow(w, rest);
      NonEmpty(w);
      assert (w + rest)[|w|..] == rest;
      StreamHandedOver(windows[1..], k + if Parse(w).Poll? then 0 else 1);
      ReadCovered(w + rest);
    }
  }

  /** When a handler refuses, the commands up to and including that one have been handed over, and no other. */
  lemma {:induction false} StreamUntilRefused(windows: seq<seq<u8>>, refused: nat, k: nat)
    requires (forall i :: 0 <= i < |windows| ==> Window(windows[i])) && k <= refused
    ensures
      Submitted(Join(windows), Some(refused), k) ==
      if refused - k < |Handed(windows)| then (Handed(windows)[..refused - k + 1], Failed(HandlerFailed))
        else (Handed(windows), Done)
    decreases |windows|
  {
    hide Parse, Covers, CommandSize, StructSize, PayloadSize, ReadCommand;
    if windows != [] {
      var w, rest := windows[0], Join(windows[1..]);
      assert Window(w);
      ReadsOwnWindow(w, rest);
      NonEmpty(w);
      assert (w + rest)[|w|..] == rest;
      ReadCovered(w + rest);
      if Parse(w).Poll? {
        StreamUntilRefused(windows[1..], refused, k);
        assert Handed(windows) == [] + Handed(windows[1..]) == Handed(windows[1..]);
        var later := Submitted(rest, Some(refused), k);
        assert [] + later.0 == later.0;
        assert Submitted(w + rest, Some(refused), k) == (later.0, later.1);
      } else if k < refused {
        StreamUntilRefused(windows[1..], refused, k + 1);
        assert Handed(windows) == [Parse(w)] + Handed(windows[1..]);
        assert refused - k < |Handed(windows)| ==>
               Handed(windows)[..refused - k + 1] == [Parse(w)] + Handed(windows[1..])[..refused - k];
      } else {
        assert Handed(windows)[..1] == [Parse(w)];
      }
    }
  }

  lemma NonEmpty(w: seq<u8>)
    requires Covers(w)
    ensures |w| >= HEADER
  {
  }

  lemma ReadCovered(b: seq<u8>)
    requires Covers(b)
    ensures ReadCommand(b) == Success(Parse(b))
  {
  }

  // ---------------------------------------------------------------------------
  // When the loop ends
  // ---------------------------------------------------------------------------

  datatype Loop = Running(rest: seq<u8>, handed: seq<Command>) | Ended(handed: seq<Command>, end: End)

  /** One pass of the loop, as it is: a command that states a size of zero leaves it where it was. */
  function Pass(l: Loop, accept: nat -> bool): Loop
    requires l.Running?
  {
    if l.rest == [] then Ended(l.handed, Done)
    else
      match ReadCommand(l.rest)
      case Failure(e) => Ended(l.handed, Failed(e))
      case Success(command) =>
        var handed := if command.Poll? then l.handed else l.handed + [command];
        if !command.Poll? && !accept(|l.handed|) then Ended(handed, Failed(HandlerFailed))
        else if CommandSize(l.rest) > |l.rest| then Ended(handed, Failed(InvalidCommandSize))
        else Running(l.rest[CommandSize(l.rest)..], handed)
  }

  function Passes(l: Loop, accept: nat -> bool, n: nat): Loop
    decreases n
  {
    if n == 0 || l.Ended? then l else Passes(Pass(l, accept), accept, n - 1)
  }

  /** The first handler call that is refused is call `refused`. */
  ghost predicate Describes(refused: Option<nat>, accept: nat -> bool) {
    && (refused == None ==> forall j :: accept(j))
    && (refused.Some? ==> !accept(refused.value) && forall j :: 0 <= j < refused.value ==> accept(j))
  }

  /** Whatever the handlers do, there is a first call that is refused, or none. */
  lemma FirstRefusal(accept: nat -> bool) returns (refused: Option<nat>)
    ensures Describes(refused, accept)
  {
    if j: nat :| !accept(j) {
      var first := FirstRefusalBelow(accept, j);
      refused := Some(first);
    } else {
      refused := None;
    }
  }

  lemma {:induction false} FirstRefusalBelow(accept: nat -> bool, j: nat) returns (first: nat)
    requires !accept(j)
    ensures !accept(first) && forall i :: 0 <= i < first ==> accept(i)
  {
    if i: nat :| i < j && !accept(i) {
      first := FirstRefusalBelow(accept, i);
    } else {
      first := j;
    }
  }

  lemma PassEnds(b: seq<u8>, handed: seq<Command>, accept: nat -> bool, refused: Option<nat>)
    requires Describes(refused, accept) && (refused.Some? ==> |handed| <= refused.value)
    requires Pass(Running(b, handed), accept).Ended?
    ensures
      var next := Pass(Running(b, handed), accept);
      next.end != Stalled && Outlook(handed, b, refused) == (next.handed, next.end)
  {
    hide Outlook, ReadCommand, CommandSize;
    if b == [] {
      OutlookDone(handed, refused);
    } else {
      OutlookStep(handed, b, refused);
    }
  }

  /** A pass that goes on changes nothing about the outlook, and makes headway unless the loop never ends. */
  lemma PassGoesOn(b: seq<u8>, handed: seq<Command>, accept: nat -> bool, refused: Option<nat>)
    requires Describes(refused, accept) && (refused.Some? ==> |handed| <= refused.value)
    requires Pass(Running(b, handed), accept).Running?
    ensures
      var next := Pass(Running(b, handed), accept);
      && (refused.Some? ==> |next.handed| <= refused.value)
      && Outlook(handed, b, refused).1 == Outlook(next.handed, next.rest, refused).1
      && (Outlook(handed, b, refused).1 != Stalled ==>
            && Outlook(handed, b, refused) == Outlook(next.handed, next.rest, refused)
            && (|next.rest| < |b|
                || (|next.rest| == |b| && CallsLeft(refused, |next.handed|) < CallsLeft(refused, |handed|))))
  {
    OutlookStep(handed, b, refused);
    hide Outlook, ReadCommand, CommandSize;
    var next := Pass(Running(b, handed), accept);
    if CommandSize(b) == 0 {
      assert b[0..] == b;
      OutlookStep(next.handed, b, refused);
    }
  }

  lemma {:induction false} NeverEnds(b: seq<u8>, handed: seq<Command>, accept: nat -> bool, refused: Option<nat>,
                                     n: nat)
    requires Describes(refused, accept) && (refused.Some? ==> |handed| <= refused.value)
    requires Outlook(handed, b, refused).1 == Stalled
    ensures Passes(Running(b, handed), accept, n).Running?
    decreases n
  {
    hide Pass, Outlook, Describes;
    if n > 0 {
      var next := Pass(Running(b, handed), accept);
      if next.Ended? {
        PassEnds(b, handed, accept, refused);
      } else {
        PassGoesOn(b, handed, accept, refused);
        NeverEnds(next.rest, next.handed, accept, refused, n - 1);
      }
    }
  }

  lemma {:induction false} EndsAsOutlook(b: seq<u8>, handed: seq<Command>, accept: nat -> bool, refused: Option<nat>)
    returns (n: nat)
    requires Describes(refused, accept) && (refused.Some? ==> |handed| <= refused.value)
    requires Outlook(handed, b, refused).1 != Stalled
    ensures Passes(Running(b, handed), accept, n) == Ended(Outlook(handed, b, refused).0, Outlook(handed, b, refused).1)
    decreases |b|, CallsLeft(refused, |handed|)
  {
    hide Pass, Outlook, Describes, CallsLeft;
    var next := Pass(Running(b, handed), accept);
    if next.Ended? {
      PassEnds(b, handed, accept, refused);
      assert Passes(next, accept, 0) == next;
      n := 1;
    } else {
      PassGoesOn(b, handed, accept, refused);
      var m := EndsAsOutlook(next.rest, next.handed, accept, refused);
      n := m + 1;
    }
  }

  /**
   Going on from each whole command by the size that it states, with handlers that agree, one comes to a whole command
   that states a size of zero and that no handler ever refuses: a poll, or one whose handler accepts it again and again.
   */
  ghost predicate Endless(b: seq<u8>, accept: nat -> bool, k: nat)
    decreases |b|
  {
    && Covers(b) && (Parse(b).Poll? || accept(k))
    && if CommandSize(b) == 0 then Parse(b).Poll? || forall j :: k < j ==> accept(j)
       else CommandSize(b) <= |b| && Endless(b[CommandSize(b)..], accept, if Parse(b).Poll? then k else k + 1)
  }

  lemma ReadIffCovers(b: seq<u8>)
    ensures ReadCommand(b).Success? <==> Covers(b)
    ensures Covers(b) ==> ReadCommand(b) == Success(Parse(b))
    ensures Covers(b) ==> |b| >= HEADER
  {
  }

  lemma {:induction false} StalledIff(b: seq<u8>, accept: nat -> bool, refused: Option<nat>, k: nat)
    requires Describes(refused, accept) && (refused.Some? ==> k <= refused.value)
    ensures Submitted(b, refused, k).1 == Stalled <==> Endless(b, accept, k)
    decreases |b|, CallsLeft(refused, k)
  {
    ReadIffCovers(b);
    hide ReadCommand, Parse, Covers, CommandSize;
    if Covers(b) && (Parse(b).Poll? || Agrees(refused, k)) && CommandSize(b) <= |b| {
      var k' := if Parse(b).Poll? then k else k + 1;
      if CommandSize(b) > 0 {
        StalledIff(b[CommandSize(b)..], accept, refused, k');
      } else if !Parse(b).Poll? && refused.Some? {
        assert b[0..] == b;
        StalledIff(b, accept, refused, k');
      }
    }
  }

  /** For every stream and whatever the handlers do, the loop ends exactly when the stream is not endless for them. */
  lemma EndsIffNotEndless(b: seq<u8>, accept: nat -> bool)
    ensures (exists n: nat :: Passes(Running(b, []), accept, n).Ended?) <==> !Endless(b, accept, 0)
  {
    var refused := FirstRefusal(accept);
    StalledIff(b, accept, refused, 0);
    OutlookStart(b, refused);
    hide Endless, Submitted, Outlook, Describes;
    if !Endless(b, accept, 0) {
      var n := EndsAsOutlook(b, [], accept, refused);
    } else {
      forall n: nat
        ensures Passes(Running(b, []), accept, n).Running?
      {
        NeverEnds(b, [], accept, refused, n);
      }
    }
  }

  /** When the loop ends, it has handed over what `SubmitCmd` says, and ends as it says. */
  lemma EndsAsSubmitted(b: seq<u8>, accept: nat -> bool, refused: Option<nat>)
    requires Describes(refused, accept) && !Endless(b, accept, 0)
    ensures exists n: nat ::
            Passes(Running(b, []), accept, n) == Ended(Submitted(b, refused, 0).0, Submitted(b, refused, 0).1)
  {
    StalledIff(b, accept, refused, 0);
    OutlookStart(b, refused);
    hide Endless, Submitted, Outlook, Describes;
    var n := EndsAsOutlook(b, [], accept, refused);
  }

  // ---------------------------------------------------------------------------
  // Writing
  // ---------------------------------------------------------------------------

  function Power(n: nat): nat {
    if n == 0 then 1 else 0x100 * Power(n - 1)
  }

  /** `x` in `n` little-endian bytes. */
  function Bytes(x: nat, n: nat): (r: seq<u8>)
    ensures |r| == n
    decreases n
  {
    if n == 0 then [] else [(x % 0x100) as u8] + Bytes(x / 0x100, n - 1)
  }

  function WordBytes(xs: seq<nat>): (r: seq<u8>)
    ensures |r| == 4 * |xs|
    decreases |xs|
  {
    if xs == [] then [] else Bytes(xs[0], 4) + WordBytes(xs[1..])
  }

  lemma {:induction false} NumberAt(b: seq<u8>, at: nat, n: nat, x: nat)
    requires at + n <= |b| && b[at..at + n] == Bytes(x, n) && x < Power(n)
    ensures Number(b, at, n) == x
    decreases n
  {
    if n > 0 {
      var tail := Bytes(x / 0x100, n - 1);
      assert b[at] == Bytes(x, n)[0] by { assert b[at] == b[at..at + n][0]; }
      assert b[at + 1..at + n] == tail by {
        assert b[at + 1..at + n] == b[at..at + n][1..];
        assert Bytes(x, n)[1..] == tail;
      }
      NumberAt(b, at + 1, n - 1, x / 0x100);
    }
  }

  lemma WordAt(b: seq<u8>, at: nat, x: nat)
    requires at + 4 <= |b| && b[at..at + 4] == Bytes(x, 4) && x <= U32_MAX
    ensures Word(b, at) == x
  {
    assert Power(4) == 0x1_0000_0000;
    NumberAt(b, at, 4, x);
  }

  lemma LongAt(b: seq<u8>, at: nat, x: nat)
    requires at + 8 <= |b| && b[at..at + 8] == Bytes(x, 8) && x <= U64_MAX
    ensures Number(b, at, 8) == x
  {
    assert Power(4) == 0x1_0000_0000;
    assert Power(8) == 0x100 * Power(7) && Power(7) == 0x100 * Power(6) && Power(6) == 0x100 * Power(5);
    NumberAt(b, at, 8, x);
  }

  lemma SliceOfTail(head: seq<u8>, tail: seq<u8>, i: nat, n: nat)
    requires i + n <= |tail|
    ensures (head + tail)[|head| + i..|head| + i + n] == tail[i..i + n]
  {
  }

  lemma {:induction false} WordBytesAt(xs: seq<nat>, i: nat)
    requires i < |xs|
    ensures WordBytes(xs)[4 * i..4 * i + 4] == Bytes(xs[i], 4)
    decreases i
  {
    hide Bytes;
    var head, tail := Bytes(xs[0], 4), WordBytes(xs[1..]);
    assert WordBytes(xs) == head + tail;
    hide WordBytes;
    if i > 0 {
      WordBytesAt(xs[1..], i - 1);
      SliceOfTail(head, tail, 4 * (i - 1), 4);
    } else {
      assert (head + tail)[0..4] == head;
    }
  }

  lemma WordOfWords(b: seq<u8>, at: nat, xs: seq<nat>, i: nat)
    requires at + 4 * |xs| <= |b| && b[at..at + 4 * |xs|] == WordBytes(xs)
    requires i < |xs| && xs[i] <= U32_MAX
    ensures Word(b, at + 4 * i) == xs[i]
  {
    hide Word, WordBytes, Bytes;
    WordBytesAt(xs, i);
    SliceOfSlice(b, at, 4 * |xs|, 4 * i, 4);
    WordAt(b, at + 4 * i, xs[i]);
  }

  lemma WordsAt(b: seq<u8>, at: nat, xs: seq<nat>)
    requires at + 4 * |xs| <= |b| && b[at..at + 4 * |xs|] == WordBytes(xs)
    requires forall i :: 0 <= i < |xs| ==> xs[i] <= U32_MAX
    ensures Words(b, at, |xs|) == xs
  {
    hide Word, WordBytes;
    forall i | 0 <= i < |xs|
      ensures Word(b, at + 4 * i) == xs[i]
    {
      WordOfWords(b, at, xs, i);
    }
  }

  function CodeOf(c: Command): u8 {
    match c
    case Init(_, _, _, _) => CMD_INIT
    case GetImageRequirements(_, _, _, _) => CMD_GET_IMAGE_REQUIREMENTS
    case Poll => CMD_POLL
    case Send(_, _, _, _, _) => CMD_SEND
    case Write(_, _, _) => CMD_WRITE
    case CreateSentinel(_, _, _) => CMD_CREATE_SENTINEL
    case SignalSentinel(_) => CMD_SIGNAL_SENTINEL
    case DestroySentinel(_) => CMD_DESTROY_SENTINEL
    case CreateEvent(_) => CMD_CREATE_EVENT
    case ImportVirtioFs(_, _, _) => CMD_IMPORT_VIRTIOFS
    case AssignSocketUuid(_, _) => CMD_ASSIGN_SOCKET_UUID
  }

  /** The fields of a command fit their places. */
  predicate Encodable(c: Command) {
    match c
    case Init(q, r, t, uuid) => q <= U32_MAX && r <= U32_MAX && t <= U32_MAX && |uuid| == 16
    case GetImageRequirements(w, h, f, flags) => w <= U32_MAX && h <= U32_MAX && f <= U32_MAX && flags <= U32_MAX
    case Poll => true
    case Send(n, ids, types, sizes, data) =>
      && n <= U32_MAX && |data| <= U32_MAX && |ids| == |types| == |sizes| == MAX_IDENTIFIERS
      && forall i :: 0 <= i < MAX_IDENTIFIERS ==> ids[i] <= U32_MAX && types[i] <= U32_MAX && sizes[i] <= U32_MAX
    case Write(id, hangUp, data) => id <= U32_MAX && hangUp <= U32_MAX && |data| <= U32_MAX
    case CreateSentinel(fs, handle, id) => fs <= U64_MAX && handle <= U64_MAX && id <= U32_MAX
    case SignalSentinel(id) => id <= U32_MAX
    case DestroySentinel(id) => id <= U32_MAX
    case CreateEvent(id) => id <= U32_MAX
    case ImportVirtioFs(fs, handle, id) => fs <= U64_MAX && handle <= U64_MAX && id <= U32_MAX
    case AssignSocketUuid(uuid, id) => |uuid| == 16 && id <= U32_MAX
  }

  /** What follows the header. */
  function Body(c: Command): seq<u8> {
    match c
    case Init(q, r, t, uuid) => Bytes(q, 4) + Bytes(r, 4) + Bytes(t, 4) + uuid
    case GetImageRequirements(w, h, f, flags) => Bytes(w, 4) + Bytes(h, 4) + Bytes(f, 4) + Bytes(flags, 4)
    case Poll => []
    case Send(n, ids, types, sizes, data) =>
      Bytes(n, 4) + Bytes(|data|, 4) + WordBytes(ids) + WordBytes(types) + WordBytes(sizes) + data
    case Write(id, hangUp, data) => Bytes(id, 4) + Bytes(hangUp, 4) + Bytes(|data|, 4) + Bytes(0, 4) + data
    case CreateSentinel(fs, handle, id) => Bytes(fs, 8) + Bytes(handle, 8) + Bytes(id, 4) + Bytes(0, 4)
    case SignalSentinel(id) => Bytes(id, 4) + Bytes(0, 4)
    case DestroySentinel(id) => Bytes(id, 4) + Bytes(0, 4)
    case CreateEvent(id) => Bytes(id, 4) + Bytes(0, 4)
    case ImportVirtioFs(fs, handle, id) => Bytes(fs, 8) + Bytes(handle, 8) + Bytes(id, 4) + Bytes(0, 4)
    case AssignSocketUuid(uuid, id) => uuid + Bytes(id, 4) + Bytes(0, 4)
  }

  /** A header that states the size of all that it heads. */
  function Headed(cmd: u8, ring: u8, body: seq<u8>): seq<u8> {
    [cmd, ring] + Bytes(HEADER + |body|, 2) + Bytes(0, 4) + body
  }

  /** The bytes of a command; a size that is stated too large leaves room for a filler. */
  function Encode(c: Command, ring: u8, filler: seq<u8>): seq<u8> {
    Headed(CodeOf(c), ring, Body(c) + filler)
  }

  lemma HeadedReads(cmd: u8, ring: u8, body: seq<u8>)
    requires HEADER + |body| < 0x1_0000
    ensures
      var b := Headed(cmd, ring, body);
      |b| == HEADER + |body| && b[0] == cmd && CommandSize(b) == |b| && b[HEADER..] == body
  {
    var b := Headed(cmd, ring, body);
    hide Bytes;
    assert b[2..4] == Bytes(HEADER + |body|, 2);
    assert Power(2) == 0x1_0000;
    NumberAt(b, 2, 2, HEADER + |body|);
  }

  lemma BodyWord(b: seq<u8>, body: seq<u8>, at: nat, x: nat)
    requires |b| == HEADER + |body| && b[HEADER..] == body && at + 4 <= |body| && body[at..at + 4] == Bytes(x, 4)
             && x <= U32_MAX
    ensures Word(b, HEADER + at) == x
  {
    SliceOfSlice(b, HEADER, |body|, at, 4);
    WordAt(b, HEADER + at, x);
  }

  lemma BodyLong(b: seq<u8>, body: seq<u8>, at: nat, x: nat)
    requires |b| == HEADER + |body| && b[HEADER..] == body && at + 8 <= |body| && body[at..at + 8] == Bytes(x, 8)
             && x <= U64_MAX
    ensures Number(b, HEADER + at, 8) == x
  {
    SliceOfSlice(b, HEADER, |body|, at, 8);
    LongAt(b, HEADER + at, x);
  }

  lemma BodyWords(b: seq<u8>, body: seq<u8>, at: nat, xs: seq<nat>)
    requires |b| == HEADER + |body| && b[HEADER..] == body && at + 4 * |xs| <= |body|
             && body[at..at + 4 * |xs|] == WordBytes(xs)
    requires forall i :: 0 <= i < |xs| ==> xs[i] <= U32_MAX
    ensures Words(b, HEADER + at, |xs|) == xs
  {
    hide Word, Words, WordBytes, Bytes;
    SliceOfSlice(b, HEADER, |body|, at, 4 * |xs|);
    assert b[HEADER..HEADER + |body|] == body;
    WordsAt(b, HEADER + at, xs);
  }

  lemma SendReads(b: seq<u8>, c: Command, filler: seq<u8>)
    requires c.Send? && Encodable(c) && |b| == HEADER + |Body(c) + filler| && b[HEADER..] == Body(c) + filler
    requires b[0] == CMD_SEND && CommandSize(b) == |b|
    ensures Covers(b) && Parse(b) == c
  {
    hide Bytes, WordBytes, Word, Words, CommandSize;
    var body := Body(c) + filler;
    var n, ids, types, sizes, data := c.numIdentifiers, c.identifiers, c.types, c.sizes, c.data;
    assert body[0..4] == Bytes(n, 4) && body[4..8] == Bytes(|data|, 4);
    assert body[8..120] == WordBytes(ids);
    assert body[120..232] == WordBytes(types);
    assert body[232..344] == WordBytes(sizes);
    assert body[344..344 + |data|] == data;
    BodyWord(b, body, 0, n);
    BodyWord(b, body, 4, |data|);
    BodyWords(b, body, 8, ids);
    BodyWords(b, body, 120, types);
    BodyWords(b, body, 232, sizes);
    SliceOfSlice(b, HEADER, |body|, 344, |data|);
    assert b[SEND..SEND + |data|] == data;
  }

  lemma WriteReads(b: seq<u8>, c: Command, filler: seq<u8>)
    requires c.Write? && Encodable(c) && |b| == HEADER + |Body(c) + filler| && b[HEADER..] == Body(c) + filler
    requires b[0] == CMD_WRITE && CommandSize(b) == |b|
    ensures Covers(b) && Parse(b) == c
  {
    hide Bytes, Word, CommandSize;
    var body := Body(c) + filler;
    assert body[0..4] == Bytes(c.identifier, 4) && body[4..8] == Bytes(c.hangUp, 4)
           && body[8..12] == Bytes(|c.data|, 4);
    assert body[16..16 + |c.data|] == c.data;
    BodyWord(b, body, 0, c.identifier);
    BodyWord(b, body, 4, c.hangUp);
    BodyWord(b, body, 8, |c.data|);
    SliceOfSlice(b, HEADER, |body|, 16, |c.data|);
    assert b[READ_WRITE..READ_WRITE + |c.data|] == c.data;
  }

  lemma PlainReads(b: seq<u8>, c: Command, filler: seq<u8>)
    requires !c.Send? && !c.Write? && Encodable(c) && |b| == HEADER + |Body(c) + filler|
             && b[HEADER..] == Body(c) + filler
    requires b[0] == CodeOf(c) && CommandSize(b) == |b| && (c.Init? ==> filler == [])
    ensures Covers(b) && Parse(b) == c
  {
    hide Bytes, Word, Number, CommandSize;
    var body := Body(c) + filler;
    if c.Init? {
      assert body == Body(c);
    }
    match c
    case Init(_, _, _, _) => CurrentInitReads(b, c);
    case GetImageRequirements(w, h, f, flags) =>
      assert body[0..4] == Bytes(w, 4) && body[4..8] == Bytes(h, 4) && body[8..12] == Bytes(f, 4)
             && body[12..16] == Bytes(flags, 4);
      BodyWord(b, body, 0, w);
      BodyWord(b, body, 4, h);
      BodyWord(b, body, 8, f);
      BodyWord(b, body, 12, flags);
    case Poll =>
    case AssignSocketUuid(uuid, id) =>
      assert body[0..16] == uuid && body[16..20] == Bytes(id, 4);
      SliceOfSlice(b, HEADER, |body|, 0, 16);
      BodyWord(b, body, 16, id);
    case CreateSentinel(fs, handle, id) => FileReads(b, body, fs, handle, id, filler);
    case ImportVirtioFs(fs, handle, id) => FileReads(b, body, fs, handle, id, filler);
    case SignalSentinel(id) => IdReads(b, body, id, filler);
    case DestroySentinel(id) => IdReads(b, body, id, filler);
    case CreateEvent(id) => IdReads(b, body, id, filler);
  }

  lemma CurrentInitReads(b: seq<u8>, c: Command)
    requires c.Init? && Encodable(c) && |b| == HEADER + |Body(c)| && b[HEADER..] == Body(c) && b[0] == CMD_INIT
             && CommandSize(b) == |b|
    ensures Covers(b) && Parse(b) == c
  {
    hide Bytes, Word, CommandSize;
    var body := Body(c);
    assert body[0..4] == Bytes(c.queryRing, 4) && body[4..8] == Bytes(c.channelRing, 4)
           && body[8..12] == Bytes(c.channelType, 4);
    assert body[12..28] == c.uuid;
    BodyWord(b, body, 0, c.queryRing);
    BodyWord(b, body, 4, c.channelRing);
    BodyWord(b, body, 8, c.channelType);
    SliceOfSlice(b, HEADER, |body|, 12, 16);
    assert b[20..36] == c.uuid;
  }

  lemma IdReads(b: seq<u8>, body: seq<u8>, id: nat, filler: seq<u8>)
    requires |b| == HEADER + |body| && b[HEADER..] == body && id <= U32_MAX
             && body == Bytes(id, 4) + Bytes(0, 4) + filler
    ensures Word(b, 8) == id
  {
    assert body[0..4] == Bytes(id, 4);
    BodyWord(b, body, 0, id);
  }

  lemma FileReads(b: seq<u8>, body: seq<u8>, fs: nat, handle: nat, id: nat, filler: seq<u8>)
    requires |b| == HEADER + |body| && b[HEADER..] == body && fs <= U64_MAX && handle <= U64_MAX && id <= U32_MAX
    requires body == Bytes(fs, 8) + Bytes(handle, 8) + Bytes(id, 4) + Bytes(0, 4) + filler
    ensures Number(b, 8, 8) == fs && Number(b, 16, 8) == handle && Word(b, 24) == id
  {
    hide Bytes, Number;
    assert body[0..8] == Bytes(fs, 8) && body[8..16] == Bytes(handle, 8) && body[16..20] == Bytes(id, 4);
    BodyLong(b, body, 0, fs);
    BodyLong(b, body, 8, handle);
    BodyWord(b, body, 16, id);
  }

  /** Whatever command is written, the same command is read; a filler behind it makes no difference. */
  lemma WriteThenRead(c: Command, ring: u8, filler: seq<u8>)
    requires Encodable(c) && HEADER + |Body(c) + filler| < 0x1_0000 && (c.Init? ==> filler == [])
    ensures Window(Encode(c, ring, filler)) && Parse(Encode(c, ring, filler)) == c
  {
    HeadedReads(CodeOf(c), ring, Body(c) + filler);
    var b := Encode(c, ring, filler);
    hide Body, Parse, Covers, CommandSize, Headed;
    if c.Send? {
      SendReads(b, c, filler);
    } else if c.Write? {
      WriteReads(b, c, filler);
    } else {
      PlainReads(b, c, filler);
    }
  }

  lemma InitReads(b: seq<u8>)
    requires |b| in {INIT_LEGACY, INIT_V1} && b[0] == CMD_INIT && CommandSize(b) == |b|
    ensures Window(b)
    ensures |b| == INIT_LEGACY ==> ReadCommand(b) == Success(Init(Word(b, 8), Word(b, 8), Word(b, 12), NO_UUID))
    ensures |b| == INIT_V1 ==> ReadCommand(b) == Success(Init(Word(b, 8), Word(b, 12), Word(b, 16), NO_UUID))
  {
    hide CommandSize, Word;
  }

  /** The two older forms of INIT are told apart from the current one by their size, and upgraded to it. */
  lemma LegacyInitUpgraded(ring: u8, query: nat, kind: nat)
    requires query <= U32_MAX && kind <= U32_MAX
    ensures
      var legacy := Headed(CMD_INIT, ring, Bytes(query, 4) + Bytes(kind, 4));
      Window(legacy) && ReadCommand(legacy) == Success(Init(query, query, kind, NO_UUID))
  {
    hide Bytes, Word, Number, CommandSize, Headed, Window, ReadCommand, Parse, Covers, StructSize, NO_UUID;
    var body := Bytes(query, 4) + Bytes(kind, 4);
    var b := Headed(CMD_INIT, ring, body);
    HeadedReads(CMD_INIT, ring, body);
    InitReads(b);
    assert body[0..4] == Bytes(query, 4) && body[4..8] == Bytes(kind, 4);
    BodyWord(b, body, 0, query);
    BodyWord(b, body, 4, kind);
  }

  lemma InitV1Upgraded(ring: u8, query: nat, channel: nat, kind: nat)
    requires query <= U32_MAX && channel <= U32_MAX && kind <= U32_MAX
    ensures
      var v1 := Headed(CMD_INIT, ring, Bytes(query, 4) + Bytes(channel, 4) + Bytes(kind, 4));
      Window(v1) && ReadCommand(v1) == Success(Init(query, channel, kind, NO_UUID))
  {
    hide Bytes, Word, Number, CommandSize, Headed, Window, ReadCommand, Parse, Covers, StructSize, NO_UUID;
    var body := Bytes(query, 4) + Bytes(channel, 4) + Bytes(kind, 4);
    var b := Headed(CMD_INIT, ring, body);
    HeadedReads(CMD_INIT, ring, body);
    InitReads(b);
    assert body[0..4] == Bytes(query, 4) && body[4..8] == Bytes(channel, 4) && body[8..12] == Bytes(kind, 4);
    BodyWord(b, body, 0, query);
    BodyWord(b, body, 4, channel);
    BodyWord(b, body, 8, kind);
  }

  /** The commands of a list that have a handler. */
  function WithoutPolls(commands: seq<Command>): seq<Command>
    decreases |commands|
  {
    if commands == [] then [] else (if commands[0].Poll? then [] else [commands[0]]) + WithoutPolls(commands[1..])
  }

  /** `windows` are the bytes of `commands`, one for one. */
  ghost predicate Written(commands: seq<Command>, windows: seq<seq<u8>>) {
    && |commands| == |windows|
    && forall i :: 0 <= i < |commands| ==> exists ring, filler ::
         && Encodable(commands[i]) && HEADER + |Body(commands[i]) + filler| < 0x1_0000
            && (commands[i].Init? ==> filler == [])
         && windows[i] == Encode(commands[i], ring, filler)
  }

  lemma WrittenReads(commands: seq<Command>, windows: seq<seq<u8>>)
    requires Written(commands, windows)
    ensures |commands| == |windows|
    ensures forall i :: 0 <= i < |windows| ==> Window(windows[i]) && Parse(windows[i]) == commands[i]
  {
    hide Covers, CommandSize, Parse, Encode, Body, Encodable;
    forall i | 0 <= i < |windows|
      ensures Window(windows[i]) && Parse(windows[i]) == commands[i]
    {
      var ring, filler :| Encodable(commands[i]) && HEADER + |Body(commands[i]) + filler| < 0x1_0000
                          && (commands[i].Init? ==> filler == []) && windows[i] == Encode(commands[i], ring, filler);
      WriteThenRead(commands[i], ring, filler);
    }
  }

  lemma {:induction false} HandedIsWritten(commands: seq<Command>, windows: seq<seq<u8>>)
    requires |commands| == |windows|
    requires forall i :: 0 <= i < |windows| ==> Window(windows[i]) && Parse(windows[i]) == commands[i]
    ensures Handed(windows) == WithoutPolls(commands)
    decreases |windows|
  {
    hide Window, Parse;
    if windows != [] {
      HandedIsWritten(commands[1..], windows[1..]);
    }
  }

  /** Any list of commands, written end to end and submitted, reaches the handlers as it is, in order and once each. */
  lemma CommandsRoundTrip(commands: seq<Command>, windows: seq<seq<u8>>)
    requires Written(commands, windows)
    ensures Submitted(Join(windows), None, 0) == (WithoutPolls(commands), Done)
  {
    hide Written, Submitted, Handed;
    WrittenReads(commands, windows);
    StreamHandedOver(windows, 0);
    HandedIsWritten(commands, windows);
  }
}
