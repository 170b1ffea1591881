/**
 The library handle over one default component, the 2D one: its map of resources, the
 dispatch of the transfers, and snapshot and restore.
 */
module RutabagaCore {
  import opened Machine
  import opened Transfer2D
  import opened ScatterGather
  import opened TransferLaws
  import opened Rutabaga2D

  // ---------------------------------------------------------------------------
  // Snapshots
  // ---------------------------------------------------------------------------

  datatype Info2DSnapshot = Info2DSnapshot(width: u32, height: u32)

  datatype ResourceSnapshot = ResourceSnapshot(
    resourceId: u32, blob: bool, blobMem: u32, blobFlags: u32, mapInfo: Option<u32>, info2D: Option<Info2DSnapshot>,
    info3D: Option<Info3D>, vulkanInfo: Option<VulkanInfo>, componentMask: nat, size: nat)

  function SnapshotOf(r: Resource): ResourceSnapshot {
    ResourceSnapshot(r.resourceId, r.blob, r.blobMem, r.blobFlags, r.mapInfo,
                     if r.info2D.Some? then Some(Info2DSnapshot(r.info2D.value.width, r.info2D.value.height)) else None,
                     r.info3D, r.vulkanInfo, r.componentMask, r.size)
  }

  /** The restored resource, given the host copy allocated for it. */
  function Restored(s: ResourceSnapshot, hostMem: Option<array<u8>>): Resource {
    Resource(s.resourceId, None, s.blob, s.blobMem, s.blobFlags, s.mapInfo,
             if s.info2D.Some? then Some(Info2D(s.info2D.value.width, s.info2D.value.height, hostMem, None)) else None,
             s.info3D, s.vulkanInfo, None, s.componentMask, s.size, None)
  }

  /** `r` is what a restore makes of `s`: a zeroed host copy, and no handle, backing or mapping. */
  ghost predicate Blank(r: Resource, s: ResourceSnapshot)
    reads if HostMem(r).Some? then {HostMem(r).value} else {}
  {
    && r == Restored(s, HostMem(r))
    && HostMem(r).Some? == s.info2D.Some?
    && (HostMem(r).Some? ==>
        && HostMem(r).value.Length == RestoredSize(s.info2D.value.width, s.info2D.value.height)
        && forall i :: 0 <= i < HostMem(r).value.Length ==> HostMem(r).value[i] == 0)
  }

  method RestoreResource(s: ResourceSnapshot) returns (r: Resource)
    ensures Blank(r, s) && Unattached(r) && ResourceValid(r) && r.resourceId == s.resourceId
    ensures HostMem(r).Some? ==> fresh(HostMem(r).value)
  {
    var hostMem := None;
    if s.info2D.Some? {
      var bytes := new u8[RestoredSize(s.info2D.value.width, s.info2D.value.height)](_ => 0);
      hostMem := Some(bytes);
    }
    r := Restored(s, hostMem);
  }

  /** Two numbers below the modulus that differ by a multiple of it are equal; `big` need not be below. */
  lemma SameResidue(small: nat, big: nat, p: int)
    requires small <= U32_MAX && big == small + p * 0x1_0000_0000
    ensures small <= big && (small == big <==> big <= U32_MAX)
  {
  }

  /**
   A resource comes back from a restore with a host copy of the length it was created with
   exactly when that length fits u32; it never comes back with a longer one.
   */
  lemma RestoreKeepsLengthIff(width: u32, height: u32)
    ensures RestoredSize(width, height) == Stride(width) * height <==> Stride(width) * height <= U32_MAX
    ensures RestoredSize(width, height) <= Stride(width) * height
  {
    var wh: nat, restored: nat, stride: nat := Wrap32(width * height), RestoredSize(width, height), Stride(width);
    var a := Quotient(width * height);
    var b := Quotient(wh * 4);
    var c := Quotient(4 * width);
    hide Wrap32;
    Regroup(width, height, stride, c);
    SameResidue(restored, stride * height, 4 * a + b - c * height);
  }

  /** How often the modulus goes into an unchecked product. */
  lemma Quotient(x: nat) returns (q: nat)
    ensures x == q * 0x1_0000_0000 + Wrap32(x)
  {
    q := x / 0x1_0000_0000;
  }

  /** A snapshot survives a restore: snapshotting the restored resource gives it back. */
  lemma SnapshotOfRestored(s: ResourceSnapshot, hostMem: Option<array<u8>>)
    ensures SnapshotOf(Restored(s, hostMem)) == s
  {
  }

  /** Nothing that a snapshot cannot hold: a handle, attached memory, a mapping, and the scanout stride. */
  predicate Unattached(r: Resource) {
    && r.handle == None && r.backing == None && r.mapping == None
    && (r.info2D.Some? ==> r.info2D.value.scanoutStride == None)
  }

  /** A snapshot and a restore keep all the rest of a resource, but for the content of its host copy. */
  lemma RestoredKeeps(r: Resource, hostMem: Option<array<u8>>)
    ensures Unattached(Restored(SnapshotOf(r), hostMem))
    ensures Restored(SnapshotOf(r), hostMem) ==
            r.(handle := None, backing := None, mapping := None,
               info2D := if r.info2D.Some? then Some(Info2D(r.info2D.value.width, r.info2D.value.height, hostMem, None))
                         else None)
  {
  }

  /** What a write without a buffer answers, when the host copy holds `host`. */
  function WriteAnswer(r: Resource, t: Transfer3D, host: seq<u8>): Outcome {
    if WriteRefused(r, t, false).Some? then WriteRefused(r, t, false).value else Written(r, t, host).1
  }

  /** What `r` answers to writes once its backing has been attached. */
  function AttachedAnswer(r: Resource, pieces: seq<seq<u8>>, t: Transfer3D, host: seq<u8>): Outcome {
    WriteAnswer(r.(backing := Some(pieces)), t, host)
  }

  /** `host` is as long as the host copy of `r`, if it has one. */
  predicate AsLong(r: Resource, host: seq<u8>) {
    HostMem(r).Some? ==> |host| == HostMem(r).value.Length
  }

  /** The two answer every write alike, whatever backing is attached to both and whatever their host copies hold. */
  ghost predicate AnswerAlike(r: Resource, restored: Resource) {
    forall pieces, t, before, after :: AsLong(r, before) && AsLong(restored, after) ==>
      AttachedAnswer(r, pieces, t, before) == AttachedAnswer(restored, pieces, t, after)
  }

  /** A restored resource whose host copy has kept its length answers as before. */
  lemma KeptLengthAlike(r: Resource, restored: Resource)
    requires r.info2D.Some? && HostMem(r).Some? && HostMem(restored).Some?
    requires restored == Restored(SnapshotOf(r), HostMem(restored))
             && HostMem(restored).value.Length == HostMem(r).value.Length
    ensures AnswerAlike(r, restored)
  {
    forall pieces, t, before, after | AsLong(r, before) && AsLong(restored, after)
      ensures AttachedAnswer(r, pieces, t, before) == AttachedAnswer(restored, pieces, t, after)
    {
      WrittenByLength(r.(backing := Some(pieces)), restored.(backing := Some(pieces)), t, before, after);
    }
  }

  /** The write of all lines at once, which needs the whole of a host copy of `stride * height` bytes. */
  function WholeWrite(stride: u32, height: u32): Transfer3D {
    Transfer3D(0, 0, 0, stride / 4, height, 1, 0, 0, 0, 0)
  }

  ghost predicate WholeBacking(stride: u32, height: u32, pieces: seq<seq<u8>>) {
    stride > 0 && stride % 4 == 0 && height > 0 && |pieces| == 1 && |pieces[0]| == stride * height <= ISIZE_MAX
  }

  lemma WholeRect(stride: u32, height: u32, pieces: seq<seq<u8>>)
    requires WholeBacking(stride, height, pieces)
    ensures
      var rect := RectOf(0, 0, stride / 4, height, stride, 0, stride, 0);
      && Safe(rect, pieces) && AddressesFit(rect, pieces) && Holds(rect, pieces, stride * height)
      && Wanted(rect, pieces, 0, 0, height - 1, stride * height - 1)
      && rect.DstOf(height - 1, stride * height - 1) == stride * height - 1
  {
    assert At(stride, 0, 0, height - 1, 0) == stride * height - stride && Offset(pieces, 1) == stride * height
           && Offset(pieces, 0) == 0;
    RectSafe(0, 0, stride / 4, height, stride, stride, 0, pieces, stride * height);
    RectHolds(0, 0, stride / 4, height, stride, stride, 0, pieces, stride * height);
    RectShape(0, 0, stride / 4, height, stride, stride, 0);
    RectLines(0, 0, stride / 4, height, stride, stride, 0, height - 1);
  }

  /** It succeeds exactly if the host copy is that long. */
  lemma WholeWriteIff(stride: u32, height: u32, pieces: seq<seq<u8>>, host: seq<u8>)
    requires WholeBacking(stride, height, pieces) && |host| <= stride * height
    ensures Walk(RectOf(0, 0, stride / 4, height, stride, 0, stride, 0), host, pieces, 0, 0).1 == Ok <==>
            |host| == stride * height
  {
    hide Walk, RectOf, Safe, AddressesFit, Rect.Lo, Rect.DstLo, Wanted;
    WholeRect(stride, height, pieces);
    OkIffHolds(RectOf(0, 0, stride / 4, height, stride, 0, stride, 0), pieces, host);
  }

  lemma WholeAnswer(r: Resource, pieces: seq<seq<u8>>, host: seq<u8>)
    requires HostMem(r).Some? && |host| <= Stride(r.info2D.value.width) * r.info2D.value.height
    requires WholeBacking(Stride(r.info2D.value.width), r.info2D.value.height, pieces)
    ensures
      var stride, height := Stride(r.info2D.value.width), r.info2D.value.height;
      AttachedAnswer(r, pieces, WholeWrite(stride, height), host) == Ok <==> |host| == stride * height
  {
    hide Walk, RectOf;
    WholeWriteIff(Stride(r.info2D.value.width), r.info2D.value.height, pieces, host);
  }

  /** A restored resource whose host copy has become shorter refuses a write that it accepted before. */
  lemma ShorterDiffers(r: Resource, restored: Resource)
    requires ResourceValid(r) && HostMem(r).Some? && HostMem(restored).Some?
    requires restored == Restored(SnapshotOf(r), HostMem(restored))
    requires HostMem(r).value.Length ==
             Stride(r.info2D.value.width) * r.info2D.value.height > HostMem(restored).value.Length
    ensures !AnswerAlike(r, restored)
  {
    var stride, height := Stride(r.info2D.value.width), r.info2D.value.height;
    var t := WholeWrite(stride, height);
    var before: seq<u8> := seq(HostMem(r).value.Length, _ => 0);
    var after: seq<u8> := seq(HostMem(restored).value.Length, _ => 0);
    var pieces := [before];
    WholeAnswer(r, pieces, before);
    WholeAnswer(restored, pieces, after);
    hide WriteAnswer, WholeWrite, Restored;
    assert AttachedAnswer(r, pieces, t, before) != AttachedAnswer(restored, pieces, t, after);
  }

  /** A restored guest blob refuses a write to its first pixel. */
  lemma BlobDiffers(r: Resource, restored: Resource)
    requires ResourceValid(r) && r.info2D.Some? && HostMem(r) == None && HostMem(restored).Some?
    requires restored == Restored(SnapshotOf(r), HostMem(restored))
    ensures !AnswerAlike(r, restored)
  {
    var t := WholeWrite(4, 1);
    var after: seq<u8> := seq(HostMem(restored).value.Length, _ => 0);
    assert AttachedAnswer(r, [], t, []) != AttachedAnswer(restored, [], t, after);
  }

  /**
   With its backing attached again, a restored resource answers every write as it did before the snapshot exactly when
   it had a host copy of the length that the restore allocates. A guest blob has none; it comes back with an empty one,
   and writes that it accepted without doing anything are refused.
   */
  lemma RestoredAnswersIff(r: Resource, restored: Resource)
    requires ResourceValid(r) && r.info2D.Some? && HostMem(restored).Some?
    requires restored == Restored(SnapshotOf(r), HostMem(restored))
    requires HostMem(restored).value.Length == RestoredSize(r.info2D.value.width, r.info2D.value.height)
    ensures AnswerAlike(r, restored) <==>
            HostMem(r).Some? && HostMem(r).value.Length == RestoredSize(r.info2D.value.width, r.info2D.value.height)
  {
    if HostMem(r) == None {
      BlobDiffers(r, restored);
    } else if HostMem(r).value.Length == HostMem(restored).value.Length {
      KeptLengthAlike(r, restored);
    } else {
      RestoreKeepsLengthIff(r.info2D.value.width, r.info2D.value.height);
      ShorterDiffers(r, restored);
    }
  }

  // ---------------------------------------------------------------------------
  // The library handle
  // ---------------------------------------------------------------------------

  /** Every resource is valid and filed under its id, and no two share a host copy. */
  ghost predicate ResourcesValid(resources: map<u32, Resource>) {
    && (forall id :: id in resources ==> ResourceValid(resources[id]) && resources[id].resourceId == id)
    && (forall i, j :: i in resources && j in resources && i != j && HostMem(resources[i]).Some? ==>
          HostMem(resources[i]) != HostMem(resources[j]))
  }

  lemma AddResource(resources: map<u32, Resource>, id: u32, r: Resource)
    requires ResourcesValid(resources) && ResourceValid(r) && r.resourceId == id
    requires HostMem(r).Some? ==> forall j :: j in resources ==> HostMem(resources[j]) != HostMem(r)
    ensures ResourcesValid(resources[id := r])
  {
  }

  method RestoreInto(resources: map<u32, Resource>, id: u32, s: ResourceSnapshot) returns (r: Resource)
    requires ResourcesValid(resources) && s.resourceId == id
    ensures ResourcesValid(resources[id := r]) && Blank(r, s) && (HostMem(r).Some? ==> fresh(HostMem(r).value))
  {
    r := RestoreResource(s);
    hide Blank, ResourceValid, ResourcesValid, Restored;
    AddResource(resources, id, r);
  }

  method RestoreResources(snapshot: map<u32, ResourceSnapshot>) returns (resources: map<u32, Resource>)
    requires forall id :: id in snapshot ==> snapshot[id].resourceId == id
    ensures ResourcesValid(resources) && resources.Keys == snapshot.Keys
    ensures forall id :: id in snapshot ==> Blank(resources[id], snapshot[id])
    ensures forall id :: id in resources && HostMem(resources[id]).Some? ==> fresh(HostMem(resources[id]).value)
  {
    hide Blank, ResourcesValid;
    resources := map[];
    NothingValid();
    var ids := snapshot.Keys;
    while ids != {}
      invariant ids <= snapshot.Keys && resources.Keys == snapshot.Keys - ids && ResourcesValid(resources)
      invariant forall id :: id in resources ==> Blank(resources[id], snapshot[id])
      invariant forall id :: id in resources && HostMem(resources[id]).Some? ==> fresh(HostMem(resources[id]).value)
      decreases |ids|
    {
      var id :| id in ids;
      var r := RestoreInto(resources, id, snapshot[id]);
      resources := resources[id := r];
      ids := ids - {id};
    }
  }

  lemma NothingValid()
    ensures ResourcesValid(map[])
  {
  }

  ghost function HostMemsOf(resources: map<u32, Resource>): set<array<u8>> {
    set id | id in resources && HostMem(resources[id]).Some? :: HostMem(resources[id]).value
  }

  ghost function ImageOf(resources: map<u32, Resource>): map<u32, ResourceSnapshot> {
    map id | id in resources :: SnapshotOf(resources[id])
  }

  /** A change to a resource that leaves its host copy and its snapshot alone leaves those of all resources alone. */
  lemma ReplaceKeeps(resources: map<u32, Resource>, id: u32, r: Resource)
    requires ResourcesValid(resources) && id in resources && ResourceValid(r) && r.resourceId == id
    requires HostMem(r) == HostMem(resources[id]) && SnapshotOf(r) == SnapshotOf(resources[id])
    ensures ResourcesValid(resources[id := r])
    ensures HostMemsOf(resources[id := r]) == HostMemsOf(resources) && ImageOf(resources[id := r]) == ImageOf(resources)
  {
    hide ResourceValid, SnapshotOf, HostMem;
    var after := resources[id := r];
    assert forall j :: j in after ==>
           HostMem(after[j]) == HostMem(resources[j]) && SnapshotOf(after[j]) == SnapshotOf(resources[j]);
  }

  class Rutabaga {
    var resources: map<u32, Resource>
    // Contexts of any type; none of the modelled components can serialise one.
    var contexts: set<u32>

    ghost predicate Valid()
      reads this
    {
      ResourcesValid(resources)
    }

    ghost function HostMems(): set<array<u8>>
      reads this
    {
      HostMemsOf(resources)
    }

    /** The snapshot of every resource. */
    ghost function Image(): map<u32, ResourceSnapshot>
      reads this
    {
      ImageOf(resources)
    }

    constructor ()
      ensures Valid() && resources == map[] && contexts == {}
    {
      resources, contexts := map[], {};
    }

    method ResourceCreate3D(id: u32, width: u32, height: u32) returns (outcome: Outcome)
      requires Valid() && Stride(width) * height <= ISIZE_MAX
      modifies this`resources
      ensures Valid()
      ensures id in old(resources) ==> outcome == Err(InvalidResourceId) && resources == old(resources)
      ensures id !in old(resources) ==>
                && outcome == Ok && id in resources && resources == old(resources)[id := resources[id]]
                && HostMem(resources[id]).Some? && fresh(HostMem(resources[id]).value)
                && HostMem(resources[id]).value.Length == Stride(width) * height
                && (forall i :: 0 <= i < HostMem(resources[id]).value.Length ==> HostMem(resources[id]).value[i] == 0)
                && SnapshotOf(resources[id]) == ResourceSnapshot(id, false, 0, 0, None,
                   Some(Info2DSnapshot(width, height)),
                                                                 None, None, COMPONENT_MASK_2D, Stride(width) * height)
    {
      if id in resources { return Err(InvalidResourceId); }
      var r := Create3D(id, width, height);
      resources := resources[id := r];
      outcome := Ok;
    }

    method ResourceCreateBlob(id: u32, blobMem: u32, blobFlags: u32, size: u64, backing: Option<seq<seq<u8>>>)
      returns (outcome: Outcome)
      requires Valid() && (backing.Some? ==> forall i :: 0 <= i < |backing.value| ==> |backing.value[i]| <= ISIZE_MAX)
      modifies this`resources
      ensures Valid()
      ensures outcome == if id in old(resources) then Err(InvalidResourceId)
              else if blobMem != BLOB_MEM_GUEST then Err(Unsupported) else Ok
      ensures resources == if outcome == Ok then
              old(resources)[id := CreateBlob(id, blobMem, blobFlags, size, backing).value] else old(resources)
      // The blob is its backing: it has no size in pixels and no host copy.
      ensures outcome == Ok ==>
              && id in resources && resources[id].blob && resources[id].blobMem == blobMem == BLOB_MEM_GUEST
              && resources[id].blobFlags == blobFlags && resources[id].size == size && resources[id].backing == backing
              && resources[id].info2D == Some(Info2D(0, 0, None, None)) && resources[id].mapInfo == None
    {
      if id in resources { return Err(InvalidResourceId); }
      match CreateBlob(id, blobMem, blobFlags, size, backing)
      case Success(r) =>
        resources := resources[id := r];
        outcome := Ok;
      case Failure(e) =>
        outcome := Err(e);
    }

    method AttachBacking(id: u32, pieces: seq<seq<u8>>) returns (outcome: Outcome)
      requires Valid() && forall i :: 0 <= i < |pieces| ==> |pieces[i]| <= ISIZE_MAX
      modifies this`resources
      ensures Valid() && HostMems() == old(HostMems()) && Image() == old(Image())
      ensures id in old(resources) ==>
              outcome == Ok && resources == old(resources)[id := old(resources)[id].(backing := Some(pieces))]
      ensures id !in old(resources) ==> outcome == Err(InvalidResourceId) && resources == old(resources)
    {
      if id !in resources { return Err(InvalidResourceId); }
      var r := resources[id].(backing := Some(pieces));
      ReplaceKeeps(resources, id, r);
      hide ResourcesValid, HostMemsOf, ImageOf;
      resources := resources[id := r];
      outcome := Ok;
    }

    method DetachBacking(id: u32) returns (outcome: Outcome)
      requires Valid()
      modifies this`resources
      ensures Valid() && HostMems() == old(HostMems()) && Image() == old(Image())
      ensures id in old(resources) ==>
              outcome == Ok && resources == old(resources)[id := old(resources)[id].(backing := None)]
      ensures id !in old(resources) ==> outcome == Err(InvalidResourceId) && resources == old(resources)
    {
      if id !in resources { return Err(InvalidResourceId); }
      var r := resources[id].(backing := None);
      ReplaceKeeps(resources, id, r);
      hide ResourcesValid, HostMemsOf, ImageOf;
      resources := resources[id := r];
      outcome := Ok;
    }

    /** The scanout command gives a blob the stride at which it is read; a restore forgets it. */
    method SetScanout(id: u32, stride: Option<u32>) returns (outcome: Outcome)
      requires Valid()
      modifies this`resources
      ensures Valid() && HostMems() == old(HostMems()) && Image() == old(Image())
      ensures outcome == if id !in old(resources) then Err(InvalidResourceId)
                         else if stride.Some? && old(resources)[id].info2D == None then Err(Invalid2DInfo) else Ok
      ensures resources == if outcome == Ok && stride.Some? then
                             var r := old(resources)[id];
                             old(resources)[id := r.(info2D := Some(r.info2D.value.(scanoutStride := stride)))]
                           else old(resources)
    {
      if id !in resources { return Err(InvalidResourceId); }
      if stride.Some? {
        if resources[id].info2D == None { return Err(Invalid2DInfo); }
        var r := resources[id].(info2D := Some(resources[id].info2D.value.(scanoutStride := stride)));
        ReplaceKeeps(resources, id, r);
        hide ResourcesValid, HostMemsOf, ImageOf;
        resources := resources[id := r];
      }
      outcome := Ok;
    }

    method UnrefResource(id: u32) returns (outcome: Outcome)
      requires Valid()
      modifies this`resources
      ensures Valid()
      ensures outcome == if id in old(resources) then Ok else Err(InvalidResourceId)
      ensures resources == old(resources) - {id}
    {
      if id !in resources { return Err(InvalidResourceId); }
      resources := resources - {id};
      outcome := Ok;
    }

    /** A write changes the host copy of the one resource it names and no other. */
    method TransferWrite(id: u32, t: Transfer3D, hasBuf: bool) returns (outcome: Outcome)
      requires Valid()
      modifies HostMems()
      ensures Valid() && resources == old(resources)
      ensures forall j :: j in resources && j != id && HostMem(resources[j]).Some? ==>
                HostMem(resources[j]).value[..] == old(HostMem(resources[j]).value[..])
      ensures id !in resources ==> outcome == Err(InvalidResourceId)
      ensures id in resources && WriteRefused(resources[id], t, hasBuf).Some? ==>
                && outcome == WriteRefused(resources[id], t, hasBuf).value
                && (HostMem(resources[id]).Some? ==>
                   HostMem(resources[id]).value[..] == old(HostMem(resources[id]).value[..]))
      ensures id in resources && WriteRefused(resources[id], t, hasBuf) == None ==>
                && HostMem(resources[id]).Some?
                && (HostMem(resources[id]).value[..], outcome) ==
                   Written(resources[id], t, old(HostMem(resources[id]).value[..]))
    {
      if id !in resources { return Err(InvalidResourceId); }
      outcome := Rutabaga2D.TransferWrite(resources[id], t, hasBuf);
    }

    method TransferRead(id: u32, t: Transfer3D, buf: Option<array<u8>>) returns (outcome: Outcome)
      requires Valid() && (buf.Some? ==> buf.value.Length <= ISIZE_MAX && buf.value !in HostMems())
      modifies if buf.Some? then {buf.value} else {}
      ensures Valid() && resources == old(resources)
      ensures id !in resources ==> outcome == Err(InvalidResourceId)
      ensures id in resources && ReadRefused(resources[id], buf.Some?).Some? ==>
              outcome == ReadRefused(resources[id], buf.Some?).value
      ensures id !in resources || ReadRefused(resources[id], buf.Some?).Some? ==>
                (buf.Some? ==> buf.value[..] == old(buf.value[..]))
      ensures id in resources && ReadRefused(resources[id], buf.Some?) == None ==>
                (buf.value[..], outcome) ==
                ReadBack(resources[id], t, if HostMem(resources[id]).Some? then HostMem(resources[id]).value[..]
                  else [], old(buf.value[..]))
    {
      if id !in resources { return Err(InvalidResourceId); }
      outcome := Rutabaga2D.TransferRead(resources[id], t, buf);
    }

    /** A snapshot is refused while any context exists, because no context can be serialised. */
    method Snapshot() returns (snapshot: Result<map<u32, ResourceSnapshot>>)
      requires Valid()
      ensures snapshot == if contexts == {} then Success(Image()) else Failure(Unsupported)
    {
      if contexts != {} { return Failure(Unsupported); }
      var image := map id | id in resources :: SnapshotOf(resources[id]);
      snapshot := Success(image);
    }

    method DestroyObjects()
      requires Valid()
      modifies this
      ensures Valid() && resources == map[] && contexts == {}
    {
      var ids := resources.Keys;
      while ids != {}
        invariant Valid() && resources.Keys == ids
        decreases |ids|
      {
        var id :| id in ids;
        var outcome := UnrefResource(id);
        assert outcome == Ok;
        ids := ids - {id};
      }
      contexts := {};
    }

    /** A restore replaces everything by what the snapshot holds. */
    method Restore(snapshot: map<u32, ResourceSnapshot>)
      requires Valid() && forall id :: id in snapshot ==> snapshot[id].resourceId == id
      modifies this
      ensures Valid() && contexts == {} && resources.Keys == snapshot.Keys
      ensures forall id :: id in snapshot ==> Blank(resources[id], snapshot[id])
      ensures forall id :: id in snapshot ==> Unattached(resources[id])
      ensures fresh(HostMems()) && Image() == snapshot
    {
      DestroyObjects();
      resources := RestoreResources(snapshot);
      contexts := {};
      forall id | id in snapshot
        ensures SnapshotOf(resources[id]) == snapshot[id]
      {
        SnapshotOfRestored(snapshot[id], HostMem(resources[id]));
      }
    }
  }
}
