/** The file system calls that user programs make, on the real driver, against
    the abstract file system. */
module Syscalls {
  import opened Bytes
  import opened Layout
  import opened Storage
  import opened Volume
  import opened Driver
  import opened Tree
  import opened Refinement
  import opened FileSystem
  import opened Lookup
  import opened Runs

  const SYS_READ := 0
  const SYS_READ_DIRECTORY := 1
  const SYS_WRITE := 2
  const SYS_DELETE := 3

  type FileCall = x: int | 0 <= x <= 3

  ghost function Requested(eax: FileCall, r: Request, buf: seq<byte>): Op {
    if eax == SYS_READ then Read(r)
    else if eax == SYS_READ_DIRECTORY then ReadDirectory(r)
    else if eax == SYS_WRITE then Write(r, buf)
    else assert eax == SYS_DELETE; Delete(r)
  }

  /** The numbers that user programs put in `eax`. */
  lemma CallNumbers(r: Request, buf: seq<byte>)
    ensures Requested(0, r, buf) == Read(r)
    ensures Requested(1, r, buf) == ReadDirectory(r)
    ensures Requested(2, r, buf) == Write(r, buf)
    ensures Requested(3, r, buf) == Delete(r)
  {
  }

  /** `data` was delivered to the start of the caller's buffer, and nothing else
      in it changed. */
  ghost predicate Delivered(before: seq<byte>, after: seq<byte>, data: seq<Cluster>) {
    |Flatten(data)| <= |before| && after == Splice(before, 0, Flatten(data))
  }

  lemma DeliveredNothing(b: seq<byte>)
    ensures Delivered(b, b, [])
  {
  }

  lemma DeliveredOne(b: seq<byte>, c: Cluster)
    requires CLUSTER_SIZE <= |b|
    ensures Delivered(b, Splice(b, 0, c), [c])
  {
    assert Flatten([c]) == Flatten([]) + c by { FlattenOne([], c); }
  }

  /** The request was answered and carried out as the abstract file system says,
      and the volume is still sound, and free of leaks if it was. */
  ghost predicate Served(s: State, t: Tree, op: Op, s': State, t': Tree, reply: Reply)
    requires Sound(s, t)
  {
    Sound(s', t') && Shown(s, t).Allowed(op, reply, Shown(s', t')) && (NoLeak(s, t) ==> NoLeak(s', t'))
  }

  lemma StepServes(s: State, t: Tree, op: Op)
    requires Sound(s, t) && Legal(s, t, op)
    ensures var x := Step(s, t, op); Served(s, t, op, x.0, x.1, x.2)
  {
    hide Sound, FileSystem.Allowed, Shown, NoLeak, Step, Legal;
    StepRefines(s, t, op);
  }

  lemma ReadStep(s: State, t: Tree, r: Request)
    requires Sound(s, t) && LegalParent(s, t, r.parent)
    ensures ReadCode(s, r) == 0 ==> Walkable(s, r.parent, r.Id()) && |ReadData(s, r)| * CLUSTER_SIZE <= r.buffer_size
    ensures Step(s, t, Read(r)) == (s, t, Reply(ReadCode(s, r), if ReadCode(s, r) == 0 then ReadData(s, r) else []))
  {
    hide Sound, DecodeDir, ReadData, ReadCode;
    SoundWalkable(s, t, r.parent, r.Id());
    if ReadCode(s, r) == 0 {
      ReadIsNode(s, t, r);
    }
  }

  lemma ReadDirectoryStep(s: State, t: Tree, r: Request)
    requires Sound(s, t) && LegalParent(s, t, r.parent)
    ensures Loadable(s, r.parent, r.DirectoryId())
    ensures Step(s, t, ReadDirectory(r))
         == (s, t, Reply(ReadDirCode(s, r), if ReadDirCode(s, r) == 0 then [ReadDirData(s, r)] else []))
    ensures ReadDirCode(s, r) == 0 ==> r.buffer_size == CLUSTER_SIZE
  {
    SoundWalkable(s, t, r.parent, r.DirectoryId());
  }

  method ServeRead(driver: FAT32Driver, r: Request, buf: array<byte>, ghost t: Tree) returns (code: int, ghost data: seq<Cluster>)
    requires driver.Valid() && buf != driver.device.image_storage && r.buffer_size <= buf.Length
    requires Sound(driver.View(), t) && LegalParent(driver.View(), t, r.parent)
    modifies driver.dir_table_buf, buf
    ensures driver.View() == old(driver.View())
    ensures Step(driver.View(), t, Read(r)) == (driver.View(), t, Reply(code, data))
    ensures Delivered(old(buf[..]), buf[..], data)
  {
    hide Sound, ParentOk, Walkable, Bounded, ReadCode, ReadData, Step, Splice, Flatten, Clusters;
    ReadStep(driver.View(), t, r);
    DeliveredNothing(buf[..]);
    code := driver.Read(r, buf);
    data := if code == 0 then ReadData(driver.View(), r) else [];
  }

  method ServeReadDirectory(driver: FAT32Driver, r: Request, buf: array<byte>, ghost t: Tree) returns (code: int, ghost data: seq<Cluster>)
    requires driver.Valid() && buf != driver.device.image_storage && r.buffer_size <= buf.Length
    requires Sound(driver.View(), t) && LegalParent(driver.View(), t, r.parent)
    modifies driver.dir_table_buf, buf
    ensures driver.View() == old(driver.View())
    ensures Step(driver.View(), t, ReadDirectory(r)) == (driver.View(), t, Reply(code, data))
    ensures Delivered(old(buf[..]), buf[..], data)
  {
    hide Sound, ParentOk, Loadable, ReadDirCode, ReadDirData, Step, Splice, Flatten, Clusters, Delivered;
    ReadDirectoryStep(driver.View(), t, r);
    DeliveredNothing(buf[..]);
    if ReadDirCode(driver.View(), r) == 0 {
      DeliveredOne(buf[..], ReadDirData(driver.View(), r));
    }
    code := driver.ReadDirectory(r, buf);
    data := if code == 0 then [ReadDirData(driver.View(), r)] else [];
  }

  method ServeWrite(driver: FAT32Driver, r: Request, buf: array<byte>, ghost t: Tree) returns (code: int)
    requires driver.Valid() && buf != driver.device.image_storage
    requires Sound(driver.View(), t) && Legal(driver.View(), t, Write(r, buf[..]))
    requires driver.device.Recorded()
    modifies driver.device.image_storage, driver.device`history, driver.cluster_map, driver.dir_table_buf
    ensures driver.device.Recorded()
    ensures var x := Step(old(driver.View()), t, Write(r, buf[..])); x.0 == driver.View() && x.2 == Reply(code, [])
  {
    hide Sound, WriteResult, WriteCode, WriteTree, WriteTrace, Clusters, StoreSlot;
    code := driver.Write(r, buf);
  }

  method ServeDelete(driver: FAT32Driver, r: Request, ghost t: Tree) returns (code: int)
    requires driver.Valid() && Sound(driver.View(), t) && LegalParent(driver.View(), t, r.parent)
    requires driver.device.Recorded()
    modifies driver.device.image_storage, driver.device`history, driver.cluster_map, driver.dir_table_buf
    ensures driver.device.Recorded()
    ensures var x := Step(old(driver.View()), t, Delete(r)); x.0 == driver.View() && x.2 == Reply(code, [])
  {
    hide Sound, DeleteResult, DeleteCode, DeleteTree, DeleteTrace, Clusters;
    SoundWalkable(driver.View(), t, r.parent, r.Id());
    code := driver.Delete(r);
  }

  /** The dispatch of the four calls. Whatever the driver's directory buffer held,
      the call is served, and what it delivers is in the caller's buffer. */
  method Dispatch(driver: FAT32Driver, eax: FileCall, request: Request, buf: array<byte>, ghost t: Tree)
    returns (code: int, ghost t': Tree, ghost data: seq<Cluster>)
    requires driver.Valid() && buf != driver.device.image_storage
    requires Sound(driver.View(), t) && Legal(driver.View(), t, Requested(eax, request, buf[..]))
    requires eax == SYS_READ || eax == SYS_READ_DIRECTORY ==> request.buffer_size <= buf.Length
    requires driver.device.Recorded()
    modifies driver.device.image_storage, driver.device`history, driver.cluster_map, driver.dir_table_buf, buf
    ensures driver.device.Recorded()
    ensures Step(old(driver.View()), t, Requested(eax, request, old(buf[..]))) == (driver.View(), t', Reply(code, data))
    ensures Served(old(driver.View()), t, Requested(eax, request, old(buf[..])), driver.View(), t', Reply(code, data))
    ensures Delivered(old(buf[..]), buf[..], data)
  {
    hide Sound, Served, Delivered, Step, LegalParent, LegalWrite, Clusters;
    ghost var op := Requested(eax, request, buf[..]);
    ghost var x := Step(driver.View(), t, op);
    StepServes(driver.View(), t, op);
    DeliveredNothing(buf[..]);
    data := [];
    if eax == SYS_READ {
      code, data := ServeRead(driver, request, buf, t);
    } else if eax == SYS_READ_DIRECTORY {
      code, data := ServeReadDirectory(driver, request, buf, t);
    } else if eax == SYS_WRITE {
      code := ServeWrite(driver, request, buf, t);
    } else {
      code := ServeDelete(driver, request, t);
    }
    t' := x.1;
  }

  // ---------- Sequences of calls ----------

  /** A system call with what its buffer holds, or a restart of the system. */
  datatype Event = Call(eax: FileCall, request: Request, buf: seq<byte>) | Restart {
    ghost function Asks(): Op {
      if Call? then Requested(eax, request, buf) else Remount
    }

    /** The buffer of a reading call has the size it claims. */
    predicate Fits() {
      Call? && (eax == SYS_READ || eax == SYS_READ_DIRECTORY) ==> request.buffer_size <= |buf|
    }
  }

  ghost function Asked(events: seq<Event>): (ops: seq<Op>)
    ensures |ops| == |events|
  {
    seq(|events|, k requires 0 <= k < |events| => events[k].Asks())
  }

  /** What is left to do from `s`, put behind the replies so far, is the whole run. */
  ghost predicate OnCourse(s0: State, t0: Tree, ops: seq<Op>, i: nat, s: State, t: Tree, replies: seq<Reply>)
    requires Sound(s0, t0) && LegalRun(s0, t0, ops) && i <= |ops|
  {
    Sound(s, t) && LegalRun(s, t, ops[i..]) &&
    var whole, rest := Exec(s0, t0, ops), Exec(s, t, ops[i..]);
    whole == (rest.0, rest.1, replies + rest.2)
  }

  lemma CourseBegins(s: State, t: Tree, ops: seq<Op>)
    requires Sound(s, t) && LegalRun(s, t, ops)
    ensures OnCourse(s, t, ops, 0, s, t, [])
  {
    hide Sound, LegalRun, Exec;
    assert ops[0..] == ops;
    var y := Exec(s, t, ops);
    assert [] + y.2 == y.2;
    assert y == (y.0, y.1, y.2);
  }

  lemma CourseContinues(s0: State, t0: Tree, ops: seq<Op>, i: nat, s: State, t: Tree, replies: seq<Reply>)
    requires Sound(s0, t0) && LegalRun(s0, t0, ops) && i < |ops| && OnCourse(s0, t0, ops, i, s, t, replies)
    ensures Sound(s, t) && Legal(s, t, ops[i])
    ensures var x := Step(s, t, ops[i]); OnCourse(s0, t0, ops, i + 1, x.0, x.1, replies + [x.2])
  {
    hide Sound, Legal, Step, Shown, FileSystem.Allowed, NoLeak;
    assert ops[i..][0] == ops[i] && ops[i..][1..] == ops[i + 1..];
    StepRefines(s, t, ops[i]);
    var x := Step(s, t, ops[i]);
    var y := Exec(x.0, x.1, ops[i + 1..]);
    assert replies + ([x.2] + y.2) == (replies + [x.2]) + y.2;
  }

  lemma CourseEnds(s0: State, t0: Tree, ops: seq<Op>, s: State, t: Tree, replies: seq<Reply>)
    requires Sound(s0, t0) && LegalRun(s0, t0, ops) && OnCourse(s0, t0, ops, |ops|, s, t, replies)
    ensures Exec(s0, t0, ops) == (s, t, replies)
  {
    hide Sound;
    assert ops[|ops|..] == [] && replies + [] == replies;
  }

  /** One event, on the driver itself. */
  method ServeEvent(driver: FAT32Driver, event: Event, ghost t: Tree)
    returns (code: int, out: seq<byte>, ghost t': Tree, ghost data: seq<Cluster>)
    requires driver.Valid() && event.Fits()
    requires Sound(driver.View(), t) && Legal(driver.View(), t, event.Asks())
    requires driver.device.Recorded()
    modifies driver.device.image_storage, driver.device`history, driver.cluster_map, driver.dir_table_buf
    ensures driver.device.Recorded()
    ensures Step(old(driver.View()), t, event.Asks()) == (driver.View(), t', Reply(code, data))
    ensures Delivered(if event.Call? then event.buf else [], out, data)
  {
    hide Sound, Delivered, Step, LegalParent, LegalWrite, Clusters, Served, Mount;
    match event
    case Call(eax, request, bytes) =>
      var buf := new byte[|bytes|](i requires 0 <= i < |bytes| => bytes[i]);
      assert buf[..] == bytes;
      code, t', data := Dispatch(driver, eax, request, buf, t);
      out := buf[..];
    case Restart =>
      StepIsMount(driver.View(), t);
      DeliveredNothing([]);
      driver.InitializeFilesystemFat32();
      code, out, t', data := 0, [], t, [];
  }

  lemma StepIsMount(s: State, t: Tree)
    requires Sound(s, t)
    ensures Step(s, t, Remount) == (Mount(s.disk), t, Reply(0, []))
  {
  }

  /** From any disk without the signature and any driver: mount it and serve the
      events. The volume ends up consistent, the return codes and what was delivered
      are those of the abstract file system, started empty. */
  method ServeRun(driver: FAT32Driver, events: seq<Event>)
    returns (codes: seq<int>, outs: seq<seq<byte>>, ghost t: Tree, ghost replies: seq<Reply>)
    requires driver.Valid() && !HasSignature(driver.OnDisk()) && forall k :: 0 <= k < |events| ==> events[k].Fits()
    requires Sound(Mount(driver.OnDisk()), ROOT_TREE) ==> LegalRun(Mount(driver.OnDisk()), ROOT_TREE, Asked(events))
    requires driver.device.Recorded()
    modifies driver.device.image_storage, driver.device`history, driver.cluster_map, driver.dir_table_buf
    ensures driver.device.Recorded()
    ensures Consistent(driver.View(), t) && EMPTY.AllowedRun(Asked(events), replies, Shown(driver.View(), t))
    ensures |codes| == |outs| == |replies| == |events|
    ensures forall k :: 0 <= k < |events| ==>
      codes[k] == replies[k].code && Delivered(if events[k].Call? then events[k].buf else [], outs[k], replies[k].data)
  {
    hide Sound, NoLeak, Delivered, Step, Legal, LegalRun, Exec, OnCourse, Clusters, Mount, HasSignature, Shown,
         FileSystem.AllowedRun;
    ghost var ops := Asked(events);
    ghost var s0 := Mount(driver.OnDisk());
    ReachableIsConsistent(driver.OnDisk(), ops);
    CourseBegins(s0, ROOT_TREE, ops);
    driver.InitializeFilesystemFat32();
    codes, outs, t, replies := [], [], ROOT_TREE, [];
    var i := 0;
    while i < |events|
      invariant 0 <= i <= |events| && |codes| == |outs| == |replies| == i
      invariant driver.device.Recorded()
      invariant OnCourse(s0, ROOT_TREE, ops, i, driver.View(), t, replies)
      invariant forall k :: 0 <= k < i ==>
        codes[k] == replies[k].code && Delivered(if events[k].Call? then events[k].buf else [], outs[k], replies[k].data)
    {
      CourseContinues(s0, ROOT_TREE, ops, i, driver.View(), t, replies);
      var code, out;
      ghost var data;
      code, out, t, data := ServeEvent(driver, events[i], t);
      codes, outs, replies := codes + [code], outs + [out], replies + [Reply(code, data)];
      i := i + 1;
    }
    CourseEnds(s0, ROOT_TREE, ops, driver.View(), t, replies);
  }
}
