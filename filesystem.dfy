/**
 * The filesystem manager (os/src/fs/bt_fs.c): the list of registered
 * filesystems, the list of mount points, the mount-point lookup by path prefix
 * and `BT_Mount`.
 *
 * The two kernel lists are sequence fields of `FsManager`, in list order. A
 * filesystem's `pfnMount` is the oracle `tryMount(fs, volume)`: the mount handle
 * it returns, or None for NULL. The calls made to the filesystems' `pfnMount`
 * and `pfnUnmount` are recorded in order in `calls`. Whether `BT_kMalloc`
 * succeeds is a parameter.
 */
module Filesystem {
  import opened Common

  /** `BT_HANDLE_TYPE` of a handle's interface. */
  datatype HandleType = FilesystemHandle | VolumeHandle | PartitionHandle | BlockHandle | OtherHandle(code: int)

  /** A kernel handle: its identity and its interface type. */
  datatype Handle = Handle(id: nat, kind: HandleType)

  /** `BT_MOUNTPOINT`: the mount handle, the mounted path, the filesystem that mounted it. */
  datatype MountPoint = MountPoint(mount: Handle, path: string, fs: Handle)

  /** A call into a filesystem's interface. */
  datatype FsCall = MountCall(fs: Handle, volume: Handle) | UnmountCall(fs: Handle, mount: Handle)

  /** `pfnMount` of each filesystem, applied to a volume. */
  type MountOracle = (Handle, Handle) -> Option<Handle>

  /** The handle types `BT_Mount` accepts as a volume. */
  predicate Mountable(kind: HandleType) {
    kind == VolumeHandle || kind == PartitionHandle || kind == BlockHandle
  }

  // ---------------------------------------------------------------------------
  // strstr
  // ---------------------------------------------------------------------------

  /** `needle` occurs in `haystack` starting at position k. */
  predicate OccursAt(haystack: string, needle: string, k: nat) {
    k + |needle| <= |haystack| && haystack[k..k + |needle|] == needle
  }

  /** The first occurrence of `needle` in `haystack` at or after position i. */
  function FindFrom(haystack: string, needle: string, i: nat): (r: Option<nat>)
    requires i <= |haystack|
    decreases |haystack| - i
    ensures r.Some? ==> i <= r.value && OccursAt(haystack, needle, r.value)
    ensures r.Some? ==> forall k :: i <= k < r.value ==> !OccursAt(haystack, needle, k)
    ensures r.None? ==> forall k :: i <= k ==> !OccursAt(haystack, needle, k)
  {
    if i + |needle| > |haystack| then None
    else if haystack[i..i + |needle|] == needle then Some(i)
    else FindFrom(haystack, needle, i + 1)
  }

  /**
   * `strstr(haystack, needle)` as an offset into `haystack`, or None for NULL.
   * It points at the start of `haystack` exactly when `needle` is a prefix of it,
   * so an empty needle always matches at the start.
   */
  function StrStr(haystack: string, needle: string): (r: Option<nat>)
    ensures r == Some(0) <==> needle <= haystack
    ensures needle == [] ==> r == Some(0)
  {
    var r := FindFrom(haystack, needle, 0);
    assert needle <= haystack ==> OccursAt(haystack, needle, 0);
    r
  }

  /** Some mount point's path is a prefix of `path`. */
  predicate Covered(mountPoints: seq<MountPoint>, path: string) {
    exists j :: 0 <= j < |mountPoints| && mountPoints[j].path <= path
  }

  // ---------------------------------------------------------------------------
  // Filesystem selection
  // ---------------------------------------------------------------------------

  /**
   * The first filesystem, at or after index i, whose `pfnMount` accepts the
   * volume, with the mount handle it returns.
   */
  function FirstMountableFrom(fss: seq<Handle>, volume: Handle, tryMount: MountOracle, i: nat): (r: Option<(nat, Handle)>)
    requires i <= |fss|
    decreases |fss| - i
    ensures r.Some? ==> i <= r.value.0 < |fss| && tryMount(fss[r.value.0], volume) == Some(r.value.1)
    ensures r.Some? ==> forall j :: i <= j < r.value.0 ==> tryMount(fss[j], volume).None?
    ensures r.None? ==> forall j :: i <= j < |fss| ==> tryMount(fss[j], volume).None?
  {
    if i == |fss| then None
    else
      match tryMount(fss[i], volume)
      case Some(m) => Some((i, m))
      case None => FirstMountableFrom(fss, volume, tryMount, i + 1)
  }

  function FirstMountable(fss: seq<Handle>, volume: Handle, tryMount: MountOracle): Option<(nat, Handle)> {
    FirstMountableFrom(fss, volume, tryMount, 0)
  }

  /** The `pfnMount` calls made while trying the filesystems `fss` in order. */
  function MountCalls(fss: seq<Handle>, volume: Handle): seq<FsCall> {
    seq(|fss|, j requires 0 <= j < |fss| => MountCall(fss[j], volume))
  }

  /**
   * `BT_Mount` tries exactly the filesystems up to and including the one that
   * mounts the volume, or all of them when none does.
   */
  function TriedFilesystems(fss: seq<Handle>, volume: Handle, tryMount: MountOracle): seq<Handle> {
    match FirstMountable(fss, volume, tryMount)
    case Some(sel) => fss[..sel.0 + 1]
    case None => fss
  }

  /**
   * What the list of tried filesystems means: every one but the last refused the
   * volume; when some filesystem mounts it, the last one tried is that filesystem
   * and its handle is the one selected; otherwise every filesystem was tried and
   * every one refused.
   */
  lemma TriedFilesystemsMeaning(fss: seq<Handle>, volume: Handle, tryMount: MountOracle)
    ensures var tried := TriedFilesystems(fss, volume, tryMount);
      && tried <= fss
      && (forall j :: 0 <= j < |tried| - 1 ==> tryMount(tried[j], volume).None?)
      && (FirstMountable(fss, volume, tryMount).Some? ==>
            var (i, h) := FirstMountable(fss, volume, tryMount).value;
            |tried| == i + 1 && tried[i] == fss[i] && tryMount(tried[i], volume) == Some(h))
      && (FirstMountable(fss, volume, tryMount).None? ==>
            tried == fss && forall j :: 0 <= j < |tried| ==> tryMount(tried[j], volume).None?)
  {
    var tried := TriedFilesystems(fss, volume, tryMount);
    match FirstMountable(fss, volume, tryMount)
    case Some(sel) =>
      assert forall j :: 0 <= j < sel.0 ==> tried[j] == fss[j];
    case None =>
  }

  // ---------------------------------------------------------------------------
  // The manager
  // ---------------------------------------------------------------------------

  class FsManager {
    /** `g_oFileSystems`, in list order. */
    var fileSystems: seq<Handle>
    /** `g_oMountPoints`, in list order. */
    var mountPoints: seq<MountPoint>
    /** The calls made into the filesystems' interfaces. */
    ghost var calls: seq<FsCall>

    /** The static initialisers: both lists empty. */
    constructor ()
      ensures fileSystems == [] && mountPoints == [] && calls == []
    {
      fileSystems := [];
      mountPoints := [];
      calls := [];
    }

    /** `bt_fs_init`: empty both lists. */
    method Init() returns (err: BtError)
      modifies this`fileSystems, this`mountPoints
      ensures err == ErrNone
      ensures fileSystems == [] && mountPoints == []
    {
      fileSystems := [];
      mountPoints := [];
      err := ErrNone;
    }

    /**
     * `BT_RegisterFilesystem`: a handle that is not a filesystem is refused with
     * `BT_ERR_GENERIC`, a failed allocation gives `BT_ERR_NO_MEMORY`, and otherwise
     * the handle is appended to the filesystem list.
     */
    method RegisterFilesystem(fs: Handle, mallocOk: bool) returns (err: BtError)
      modifies this`fileSystems
      ensures fs.kind != FilesystemHandle ==> err == ErrGeneric && fileSystems == old(fileSystems)
      ensures fs.kind == FilesystemHandle && !mallocOk ==> err == ErrNoMemory && fileSystems == old(fileSystems)
      ensures fs.kind == FilesystemHandle && mallocOk ==> err == ErrNone && fileSystems == old(fileSystems) + [fs]
    {
      if fs.kind != FilesystemHandle {
        return ErrGeneric;
      }
      if !mallocOk {
        return ErrNoMemory;
      }
      fileSystems := fileSystems + [fs];
      err := ErrNone;
    }

    /**
     * `GetMountPoint`: the position of the first mount point, in list order, whose
     * path `strstr` finds at the very start of `path`, i.e. whose path is a prefix
     * of it; None (NULL) exactly when there is none.
     */
    method GetMountPoint(path: string) returns (r: Option<nat>)
      ensures r.Some? ==> r.value < |mountPoints| && mountPoints[r.value].path <= path
      ensures r.Some? ==> forall j :: 0 <= j < r.value ==> !(mountPoints[j].path <= path)
      ensures r.None? <==> !Covered(mountPoints, path)
    {
      var i := 0;
      while i < |mountPoints|
        invariant 0 <= i <= |mountPoints|
        invariant forall j :: 0 <= j < i ==> !(mountPoints[j].path <= path)
      {
        if StrStr(path, mountPoints[i].path) == Some(0) {
          return Some(i);
        }
        i := i + 1;
      }
      return None;
    }

    /**
     * `BT_Mount`. A handle that is not a volume, partition or block device, or a
     * path some mount point already covers, is refused with `BT_ERR_GENERIC`
     * before any filesystem is asked. Otherwise the filesystems are tried in
     * order until one mounts the volume; if none does, `BT_ERR_GENERIC`. If the
     * mount record cannot be allocated, that filesystem's `pfnUnmount` is called
     * and `BT_ERR_GENERIC` returned; otherwise `BT_ERR_NONE`. The record is never
     * linked into the mount-point list, so neither list changes on any path.
     */
    method Mount(volume: Handle, path: string, tryMount: MountOracle, recordAllocated: bool) returns (err: BtError)
      modifies this`calls
      ensures fileSystems == old(fileSystems) && mountPoints == old(mountPoints)
      ensures !Mountable(volume.kind) ==> err == ErrGeneric && calls == old(calls)
      ensures Mountable(volume.kind) && Covered(mountPoints, path) ==> err == ErrGeneric && calls == old(calls)
      ensures Mountable(volume.kind) && !Covered(mountPoints, path) ==>
        var sel := FirstMountable(fileSystems, volume, tryMount);
        && calls == old(calls) + MountCalls(TriedFilesystems(fileSystems, volume, tryMount), volume)
                   + (if sel.Some? && !recordAllocated then [UnmountCall(fileSystems[sel.value.0], sel.value.1)] else [])
        && err == (if sel.Some? && recordAllocated then ErrNone else ErrGeneric)
    {
      if !Mountable(volume.kind) {
        return ErrGeneric;
      }
      var existing := GetMountPoint(path);
      if existing.Some? {
        return ErrGeneric;
      }
      var i := 0;
      var mount: Option<Handle> := None;
      while i < |fileSystems|
        invariant 0 <= i <= |fileSystems|
        invariant forall j :: 0 <= j < i ==> tryMount(fileSystems[j], volume).None?
        invariant calls == old(calls) + MountCalls(fileSystems[..i], volume)
        invariant mount.None?
      {
        calls := calls + [MountCall(fileSystems[i], volume)];
        assert MountCalls(fileSystems[..i + 1], volume) == MountCalls(fileSystems[..i], volume) + [MountCall(fileSystems[i], volume)];
        mount := tryMount(fileSystems[i], volume);
        if mount.Some? {
          break;
        }
        i := i + 1;
      }
      if mount.None? {
        assert fileSystems[..i] == fileSystems;
        return ErrGeneric;
      }
      assert FirstMountable(fileSystems, volume, tryMount) == Some((i, mount.value));
      if !recordAllocated {
        calls := calls + [UnmountCall(fileSystems[i], mount.value)];
        return ErrGeneric;
      }
      err := ErrNone;
    }
  }

  // ---------------------------------------------------------------------------
  // Properties
  // ---------------------------------------------------------------------------

  /** A mount point with an empty path covers every path. */
  lemma EmptyPathCoversAll(mountPoints: seq<MountPoint>, path: string, j: nat)
    requires j < |mountPoints| && mountPoints[j].path == []
    ensures Covered(mountPoints, path)
  {
    assert mountPoints[j].path <= path;
  }

  /**
   * The filesystem chosen for a volume is the first in list order whose
   * `pfnMount` accepts it: a filesystem list with one more filesystem appended
   * chooses the same one, unless none of the earlier ones accepted it.
   */
  lemma {:induction false} SelectionIgnoresLaterFilesystems(fss: seq<Handle>, extra: Handle, volume: Handle, tryMount: MountOracle, i: nat)
    requires i <= |fss|
    ensures FirstMountableFrom(fss, volume, tryMount, i).Some? ==>
      FirstMountableFrom(fss + [extra], volume, tryMount, i) == FirstMountableFrom(fss, volume, tryMount, i)
    ensures FirstMountableFrom(fss, volume, tryMount, i).None? ==>
      FirstMountableFrom(fss + [extra], volume, tryMount, i)
        == (if tryMount(extra, volume).Some? then Some((|fss|, tryMount(extra, volume).value)) else None)
    decreases |fss| - i
  {
    if i < |fss| {
      assert (fss + [extra])[i] == fss[i];
      if tryMount(fss[i], volume).None? {
        SelectionIgnoresLaterFilesystems(fss, extra, volume, tryMount, i + 1);
      }
    } else {
      assert (fss + [extra])[i] == extra;
    }
  }
}
