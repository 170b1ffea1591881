/** What the worker and the guest thread put on a ring: a structure, and the data that goes with it. */
module RingWrite {
  import opened Machine
  import opened CommandStream
  import T = Transfer2D

  const CMD_READ: u8 := 6

  /** The structure of a read, as the guest finds it. */
  function ReadHeader(id: u32, hangUp: bool, size: nat): (r: seq<u8>)
    ensures |r| == READ_WRITE
  {
    [CMD_READ] + Bytes(0, 7) + Bytes(id, 4) + Bytes(if hangUp then 1 else 0, 4) + Bytes(size, 4) + Bytes(0, 4)
  }

  /** A command, and its data behind it.  A structure without room for its data is written all the same. */
  method WriteCommand(slice: array<u8>, command: seq<u8>, data: Option<seq<u8>>) returns (outcome: Outcome)
    modifies slice
    ensures
      var before, bytes := old(slice[..]), if data.Some? then data.value else [];
      && outcome == (if |command| + |bytes| <= slice.Length then Ok else Err(InvalidIovec))
      && slice[..] == if |command| > slice.Length then before
                      else if outcome == Ok then command + bytes + before[|command| + |bytes|..]
                      else command + before[|command|..]
  {
    if slice.Length < |command| { return Err(InvalidIovec); }
    ghost var before := slice[..];
    T.CopyFromSlice(slice, 0, command);
    assert slice[..] == command + before[|command|..];
    if data.Some? {
      if slice.Length - |command| < |data.value| { return Err(InvalidIovec); }
      T.CopyFromSlice(slice, |command|, data.value);
    }
    outcome := Ok;
  }

  /**
   What could be read from a pipe, as far as there is room, behind a structure that tells its size; nothing read means
   hung up.
   */
  method WriteFromPipe(slice: array<u8>, id: u32, readable: bool, input: Option<seq<u8>>)
    returns (outcome: Outcome, bytesRead: nat)
    modifies slice
    ensures
      var before := old(slice[..]);
      if slice.Length < READ_WRITE then outcome == Err(InvalidIovec) && slice[..] == before && bytesRead == 0
      else if readable && input == None then outcome == Err(SystemCallFailed) && slice[..] == before && bytesRead == 0
      else
        && bytesRead == (if readable then Min(|input.value|, slice.Length - READ_WRITE) else 0)
        && outcome == (if bytesRead <= U32_MAX then Ok else Err(CheckedRange))
        && (outcome == Ok ==>
             slice[..] == ReadHeader(id, bytesRead == 0, bytesRead) +
               (if readable then input.value[..bytesRead] else [])
                          + before[READ_WRITE + bytesRead..])
  {
    hide ReadHeader;
    if slice.Length < READ_WRITE { return Err(InvalidIovec), 0; }
    bytesRead := 0;
    ghost var before := slice[..];
    if readable {
      if input == None { return Err(SystemCallFailed), 0; }
      bytesRead := Min(|input.value|, slice.Length - READ_WRITE);
      T.CopyFromSlice(slice, READ_WRITE, input.value[..bytesRead]);
    }
    assert slice[READ_WRITE..] == (if readable then input.value[..bytesRead] else []) +
           before[READ_WRITE + bytesRead..];
    if bytesRead > U32_MAX { return Err(CheckedRange), bytesRead; }
    T.CopyFromSlice(slice, 0, ReadHeader(id, bytesRead == 0, bytesRead));
    outcome := Ok;
  }

  /**
   The eight bytes of an event's counter behind a structure that tells their size; it never says that the event hung up.
   */
  method WriteFromEvent(slice: array<u8>, id: u32, readable: bool, value: Option<u64>)
    returns (outcome: Outcome, bytesRead: nat)
    // Eight bytes behind the structure are indexed without a check.
    requires readable && value.Some? ==> slice.Length < READ_WRITE || slice.Length >= READ_WRITE + 8
    modifies slice
    ensures
      var before := old(slice[..]);
      if slice.Length < READ_WRITE then outcome == Err(InvalidIovec) && slice[..] == before && bytesRead == 0
      else if readable && value == None then outcome == Err(SystemCallFailed) && slice[..] == before && bytesRead == 0
      else
        && outcome == Ok && bytesRead == (if readable then 8 else 0)
        && slice[..] == ReadHeader(id, false, bytesRead) + (if readable then Bytes(value.value, 8) else [])
                        + before[READ_WRITE + bytesRead..]
  {
    hide ReadHeader, Bytes;
    if slice.Length < READ_WRITE { return Err(InvalidIovec), 0; }
    bytesRead := 0;
    ghost var before := slice[..];
    if readable {
      if value == None { return Err(SystemCallFailed), 0; }
      bytesRead := 8;
      T.CopyFromSlice(slice, READ_WRITE, Bytes(value.value, 8));
    }
    assert slice[READ_WRITE..] == (if readable then Bytes(value.value, 8) else []) + before[READ_WRITE + bytesRead..];
    T.CopyFromSlice(slice, 0, ReadHeader(id, false, bytesRead));
    outcome := Ok;
  }

  /** A guest that reads the structure finds the item, whether it hung up, and the size and place of the data. */
  lemma GuestReads(id: u32, hangUp: bool, data: seq<u8>, rest: seq<u8>)
    requires |data| <= U32_MAX
    ensures
      var ring := ReadHeader(id, hangUp, |data|) + data + rest;
      && ring[0] == CMD_READ && Word(ring, 8) == id && Word(ring, 12) == (if hangUp then 1 else 0)
         && Word(ring, 16) == |data|
      && ring[READ_WRITE..READ_WRITE + Word(ring, 16)] == data
  {
    hide Bytes, Word;
    var ring := ReadHeader(id, hangUp, |data|) + data + rest;
    assert ring[8..12] == Bytes(id, 4) && ring[12..16] == Bytes(if hangUp then 1 else 0, 4)
           && ring[16..20] == Bytes(|data|, 4);
    WordAt(ring, 8, id);
    WordAt(ring, 12, if hangUp then 1 else 0);
    WordAt(ring, 16, |data|);
  }
}
