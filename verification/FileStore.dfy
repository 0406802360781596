/** The flat file store and the descriptors through which it is used. */
module FileStore {
  import opened Words

  const NUM_FILES := 32
  const MAX_OPEN_FILES := 16
  const FILE_SIZE := 0x1000
  const WORD32 := 0x1_0000_0000
  const EINVAL := 1
  const EACCES := 4
  const SEEK_SET := 0
  const SEEK_CUR := 1
  const SEEK_END := 2

  newtype Byte = x: int | 0 <= x < 0x100

  predicate CanRead(mode: nat) { mode % 2 == 1 }

  predicate CanWrite(mode: nat) { mode / 2 % 2 == 1 }

  predicate Creates(flags: nat) { flags / 8 % 2 == 1 }

  datatype File = File(name: string, bytes: seq<Byte>)

  datatype Cursor = Cursor(node: nat, pos: nat, mode: nat)

  /** The files by inode number, and the open descriptors. */
  datatype Store = Store(nodes: seq<Option<File>>, fds: seq<Option<Cursor>>)

  predicate Named(node: Option<File>, name: string) { node.Some? && node.value.name == name }

  /** The first inode of that name, or the number of inodes. */
  function Find(nodes: seq<Option<File>>, name: string): (i: nat)
    ensures i <= |nodes| && (i < |nodes| ==> Named(nodes[i], name))
    ensures forall k :: 0 <= k < i ==> !Named(nodes[k], name)
  {
    if nodes == [] || Named(nodes[0], name) then 0 else 1 + Find(nodes[1..], name)
  }

  /** The first place from `from` on that is free, or the number of places. */
  function Free<T>(places: seq<Option<T>>, from: nat): (i: nat)
    requires from <= |places|
    ensures from <= i <= |places| && (i < |places| ==> places[i].None?)
    ensures forall k :: from <= k < i ==> places[k].Some?
    decreases |places| - from
  {
    if from == |places| || places[from].None? then from else Free(places, from + 1)
  }

  /** `bytes` with `data` over it from `pos` on. */
  function Overlay(bytes: seq<Byte>, pos: nat, data: seq<Byte>): (now: seq<Byte>)
    requires pos <= |bytes|
    ensures |now| == if pos + |data| < |bytes| then |bytes| else pos + |data|
    ensures forall k :: 0 <= k < |now| ==> now[k] == if pos <= k < pos + |data| then data[k - pos] else bytes[k]
  {
    bytes[..pos] + data + if pos + |data| < |bytes| then bytes[pos + |data|..] else []
  }

  /** A descriptor below 16 that is open. */
  predicate IsOpen(s: Store, fd: nat) {
    fd < |s.fds| && s.fds[fd].Some? && s.fds[fd].value.node < |s.nodes| && s.nodes[s.fds[fd].value.node].Some?
  }

  function FileOf(s: Store, fd: nat): File
    requires IsOpen(s, fd)
  {
    s.nodes[s.fds[fd].value.node].value
  }

  function PosOf(s: Store, fd: nat): nat
    requires IsOpen(s, fd)
  {
    s.fds[fd].value.pos
  }

  // ---- the calls ----

  function SetPos(s: Store, fd: nat, pos: nat): Store
    requires IsOpen(s, fd)
  {
    s.(fds := s.fds[fd := Some(s.fds[fd].value.(pos := pos))])
  }

  /** There is a descriptor left. */
  predicate CanOpen(s: Store) { 3 <= |s.fds| && Free(s.fds, 3) < |s.fds| }

  /** There is an inode left when the call creates a file. */
  predicate HasRoom(s: Store, name: string, flags: nat) {
    Find(s.nodes, name) == |s.nodes| && Creates(flags) ==> Free(s.nodes, 0) < |s.nodes|
  }

  /** Without an inode to spare, a new descriptor refers to none. */
  function Open(s: Store, name: string, flags: nat): (Store, int)
    requires CanOpen(s)
  {
    var i, fd := Find(s.nodes, name), Free(s.fds, 3);
    if i < |s.nodes| then (s.(fds := s.fds[fd := Some(Cursor(i, 0, flags))]), fd)
    else if Creates(flags) then
      var k := Free(s.nodes, 0);
      (Store(if k < |s.nodes| then s.nodes[k := Some(File(name, []))] else s.nodes,
             s.fds[fd := Some(Cursor(k, 0, flags))]), fd)
    else (s, -EINVAL)
  }

  /** The bytes that a read of `count` gets. */
  function Got(bytes: seq<Byte>, pos: nat, count: nat): (data: seq<Byte>)
    requires pos <= |bytes|
    ensures |data| == if count < |bytes| - pos then count else |bytes| - pos
    ensures forall k :: 0 <= k < |data| ==> data[k] == bytes[pos + k]
  {
    if pos + count <= |bytes| then bytes[pos..pos + count] else bytes[pos..]
  }

  function Read(s: Store, fd: nat, count: nat): (Store, int, seq<Byte>)
    requires IsOpen(s, fd) && PosOf(s, fd) <= |FileOf(s, fd).bytes|
  {
    if !CanRead(s.fds[fd].value.mode) then (s, -EACCES, [])
    else
      var data := Got(FileOf(s, fd).bytes, PosOf(s, fd), count);
      (SetPos(s, fd, PosOf(s, fd) + |data|), |data|, data)
  }

  predicate Fits(s: Store, fd: nat, data: seq<Byte>)
    requires IsOpen(s, fd)
  {
    PosOf(s, fd) + |data| <= FILE_SIZE
  }

  /** A write that does not fit moves the cursor back by one. */
  function Write(s: Store, fd: nat, data: seq<Byte>): (Store, int)
    requires IsOpen(s, fd) && PosOf(s, fd) <= |FileOf(s, fd).bytes|
  {
    var pos := PosOf(s, fd);
    if !CanWrite(s.fds[fd].value.mode) then (s, -EACCES)
    else if !Fits(s, fd, data) then (SetPos(s, fd, (pos - 1) % WORD32), -1)
    else
      var node := s.fds[fd].value.node;
      var file := FileOf(s, fd);
      (SetPos(s.(nodes := s.nodes[node := Some(file.(bytes := Overlay(file.bytes, pos, data)))]), fd, pos + |data|),
       |data|)
  }

  /** Where a seek goes, after the conversion to `int`. */
  function Target(size: nat, pos: nat, offset: int, whence: int): int {
    ToInt(if whence == SEEK_SET then offset else if whence == SEEK_CUR then pos + offset else size + offset)
  }

  function Seek(s: Store, fd: nat, offset: int, whence: int): (Store, int)
    requires IsOpen(s, fd)
  {
    var size := |FileOf(s, fd).bytes|;
    var x := Target(size, PosOf(s, fd), offset, whence);
    if whence in {SEEK_SET, SEEK_CUR, SEEK_END} && 0 <= x <= size then (SetPos(s, fd, x), x) else (s, -EINVAL)
  }

  /** Where a seek goes, for an offset that an `int` holds: to so many bytes from the start, from the
      cursor or from the end, if that is in the file or at its end, and else nowhere. */
  lemma SeekMeans(s: Store, fd: nat, offset: int, whence: int)
    requires Sound(s) && IsOpen(s, fd) && -0x8000_0000 <= offset < 0x8000_0000
    ensures var (t, r) := Seek(s, fd, offset, whence);
            var h, size := s.fds[fd].value, |FileOf(s, fd).bytes|;
            var x := if whence == 0 then offset else if whence == 1 then h.pos + offset else size + offset;
            if 0 <= whence <= 2 && 0 <= x <= size
            then r == x && t == s.(fds := s.fds[fd := Some(Cursor(h.node, x, h.mode))])
            else r == -1 && t == s
  {}

  /** The bits of a mode: 1 to read, 2 to write, 8 to create. */
  lemma ModeBits(r: nat, w: nat, x: nat, c: nat, more: nat)
    requires r < 2 && w < 2 && x < 2 && c < 2
    ensures var flags := r + 2 * w + 4 * x + 8 * c + 16 * more;
            (CanRead(flags) <==> r == 1) && (CanWrite(flags) <==> w == 1) && (Creates(flags) <==> c == 1)
  {
    var flags := r + 2 * w + 4 * x + 8 * c + 16 * more;
    DivMod(flags, 2, w + 2 * x + 4 * c + 8 * more, r);
    DivMod(w + 2 * x + 4 * c + 8 * more, 2, x + 2 * c + 4 * more, w);
    DivMod(flags, 8, c + 2 * more, r + 2 * w + 4 * x);
    DivMod(c + 2 * more, 2, more, c);
  }

  // ---- what it means: named files and cursors ----

  /** Names are distinct, no file is too long, every cursor is in a file and within its size. */
  ghost predicate Sound(s: Store) {
    && |s.nodes| == NUM_FILES && |s.fds| == MAX_OPEN_FILES
    && (forall i, j :: 0 <= i < j < |s.nodes| && s.nodes[i].Some? ==> !Named(s.nodes[j], s.nodes[i].value.name))
    && (forall i :: 0 <= i < |s.nodes| && s.nodes[i].Some? ==> |s.nodes[i].value.bytes| <= FILE_SIZE)
    && (forall fd :: 0 <= fd < |s.fds| && s.fds[fd].Some? ==>
          IsOpen(s, fd) && PosOf(s, fd) <= |FileOf(s, fd).bytes|)
  }

  /** The file of that name. */
  function Contents(s: Store, name: string): Option<seq<Byte>> {
    var i := Find(s.nodes, name);
    if i < |s.nodes| then Some(s.nodes[i].value.bytes) else None
  }

  lemma ContentsOf(s: Store, i: nat)
    requires Sound(s) && i < |s.nodes| && s.nodes[i].Some?
    ensures Find(s.nodes, s.nodes[i].value.name) == i
  {}

  datatype Event = Opens(name: string, flags: nat) | Reads(fd: nat, count: nat)
                 | Writes(fd: nat, data: seq<Byte>) | Seeks(fd: nat, offset: int, whence: int)

  /** Opens that find room, and other calls on open descriptors, but for a write that does not
      fit and has nowhere to step back to. */
  predicate Allowed(s: Store, e: Event) {
    match e
    case Opens(name, flags) => CanOpen(s) && HasRoom(s, name, flags)
    case Reads(fd, _) => IsOpen(s, fd) && PosOf(s, fd) <= |FileOf(s, fd).bytes|
    case Writes(fd, data) =>
      && IsOpen(s, fd) && PosOf(s, fd) <= |FileOf(s, fd).bytes|
      && (CanWrite(s.fds[fd].value.mode) && !Fits(s, fd, data) ==> PosOf(s, fd) > 0)
    case Seeks(fd, _, _) => IsOpen(s, fd)
  }

  /** The store afterwards, what the call returns, and the bytes it reads. */
  function Step(s: Store, e: Event): (Store, int, seq<Byte>)
    requires Allowed(s, e)
  {
    match e
    case Opens(name, flags) => var (t, r) := Open(s, name, flags); (t, r, [])
    case Reads(fd, count) => Read(s, fd, count)
    case Writes(fd, data) => var (t, r) := Write(s, fd, data); (t, r, [])
    case Seeks(fd, offset, whence) => var (t, r) := Seek(s, fd, offset, whence); (t, r, [])
  }

  /** An open keeps the store sound if and only if there is an inode for a file it creates. */
  lemma OpenSoundIff(s: Store, name: string, flags: nat)
    requires Sound(s) && CanOpen(s)
    ensures Sound(Open(s, name, flags).0) <==> HasRoom(s, name, flags)
  {
    hide Free, Find;
    if !HasRoom(s, name, flags) {
      assert !IsOpen(Open(s, name, flags).0, Free(s.fds, 3));
    }
  }

  lemma SetPosKeeps(s: Store, fd: nat, pos: nat)
    requires Sound(s) && IsOpen(s, fd) && pos <= |FileOf(s, fd).bytes|
    ensures Sound(SetPos(s, fd, pos))
  {}

  lemma WriteKeeps(s: Store, fd: nat, data: seq<Byte>)
    requires Sound(s) && Allowed(s, Writes(fd, data))
    ensures Sound(Write(s, fd, data).0)
  {
    if !Fits(s, fd, data) {
      if CanWrite(s.fds[fd].value.mode) {
        SetPosKeeps(s, fd, PosOf(s, fd) - 1);
        assert PosOf(s, fd) <= FILE_SIZE;
      }
      return;
    }
    var node, file := s.fds[fd].value.node, FileOf(s, fd);
    var bytes := Overlay(file.bytes, PosOf(s, fd), data);
    assert |bytes| >= |file.bytes| && PosOf(s, fd) + |data| <= |bytes| <= FILE_SIZE;
    hide Overlay;
    var t := s.(nodes := s.nodes[node := Some(file.(bytes := bytes))]);
    assert Sound(t);
    SetPosKeeps(t, fd, PosOf(s, fd) + |data|);
    hide Sound;
  }

  lemma StepKeeps(s: Store, e: Event)
    requires Sound(s) && Allowed(s, e)
    ensures Sound(Step(s, e).0)
  {
    match e {
      case Opens(name, flags) => OpenSoundIff(s, name, flags);
      case Writes(fd, data) => WriteKeeps(s, fd, data);
      case Reads(fd, count) =>
        SetPosKeeps(s, fd, PosOf(s, fd) + |Got(FileOf(s, fd).bytes, PosOf(s, fd), count)|);
      case Seeks(fd, offset, whence) =>
        var x := Target(|FileOf(s, fd).bytes|, PosOf(s, fd), offset, whence);
        if 0 <= x <= |FileOf(s, fd).bytes| {
          SetPosKeeps(s, fd, x);
        }
    }
  }

  /** A write that does not fit leaves the cursor within the file if and only if the cursor is
      not at the start: there it steps back to the byte before the file. */
  lemma FailedWriteIff(s: Store, fd: nat, data: seq<Byte>)
    requires Sound(s) && IsOpen(s, fd) && CanWrite(s.fds[fd].value.mode)
    requires !Fits(s, fd, data)
    ensures Write(s, fd, data).1 == -1 && Write(s, fd, data).0.nodes == s.nodes
    ensures Sound(Write(s, fd, data).0) <==> PosOf(s, fd) > 0
    ensures PosOf(s, fd) == 0 ==> ToInt(PosOf(Write(s, fd, data).0, fd)) == -1
  {
    var t := Write(s, fd, data).0;
    assert t.fds[fd].value.pos == (PosOf(s, fd) - 1) % WORD32;
    if PosOf(s, fd) == 0 {
      assert PosOf(t, fd) > FILE_SIZE >= |FileOf(t, fd).bytes|;
    } else {
      assert PosOf(t, fd) == PosOf(s, fd) - 1;
    }
  }

  // ---- what the calls mean: files by name, and a handle for each descriptor ----

  datatype Handle = Handle(name: string, pos: nat, mode: nat)

  datatype Plain = Plain(files: map<string, seq<Byte>>, fds: seq<Option<Handle>>)

  ghost predicate PlainAllowed(p: Plain, e: Event) {
    && |p.fds| == MAX_OPEN_FILES
    && (e.Opens? ==> Free(p.fds, 3) < |p.fds|)
    && (!e.Opens? ==> e.fd < |p.fds| && p.fds[e.fd].Some? && p.fds[e.fd].value.name in p.files
                      && p.fds[e.fd].value.pos <= |p.files[p.fds[e.fd].value.name]|)
  }

  ghost function PlainStep(p: Plain, e: Event): (Plain, int, seq<Byte>)
    requires PlainAllowed(p, e)
  {
    match e
    case Opens(name, flags) =>
      var fd := Free(p.fds, 3);
      if name in p.files || Creates(flags) then
        (Plain(if name in p.files then p.files else p.files[name := []],
               p.fds[fd := Some(Handle(name, 0, flags))]), fd, [])
      else (p, -EINVAL, [])
    case Reads(fd, count) =>
      var h := p.fds[fd].value;
      var data := Got(p.files[h.name], h.pos, count);
      if CanRead(h.mode) then (p.(fds := p.fds[fd := Some(h.(pos := h.pos + |data|))]), |data|, data)
      else (p, -EACCES, [])
    case Writes(fd, data) =>
      var h := p.fds[fd].value;
      if CanWrite(h.mode) && h.pos + |data| > FILE_SIZE then
        (p.(fds := p.fds[fd := Some(h.(pos := if h.pos > 0 then h.pos - 1 else 0))]), -1, [])
      else if CanWrite(h.mode) then
        (Plain(p.files[h.name := Overlay(p.files[h.name], h.pos, data)],
               p.fds[fd := Some(h.(pos := h.pos + |data|))]), |data|, [])
      else (p, -EACCES, [])
    case Seeks(fd, offset, whence) =>
      var h := p.fds[fd].value;
      var x := Target(|p.files[h.name]|, h.pos, offset, whence);
      if whence in {SEEK_SET, SEEK_CUR, SEEK_END} && 0 <= x <= |p.files[h.name]| then
        (p.(fds := p.fds[fd := Some(h.(pos := x))]), x, [])
      else (p, -EINVAL, [])
  }

  ghost function HandleOf(s: Store, fd: nat): Option<Handle>
    requires Sound(s) && fd < |s.fds|
  {
    if s.fds[fd].None? then None else Some(Handle(FileOf(s, fd).name, PosOf(s, fd), s.fds[fd].value.mode))
  }

  ghost function Names(nodes: seq<Option<File>>): (names: set<string>)
    ensures forall name :: name in names <==> Find(nodes, name) < |nodes|
  {
    var names := set i | 0 <= i < |nodes| && nodes[i].Some? :: nodes[i].value.name;
    assert forall name :: Find(nodes, name) < |nodes| ==> nodes[Find(nodes, name)].Some? && name in names;
    assert forall i :: 0 <= i < |nodes| && nodes[i].Some? ==> Named(nodes[i], nodes[i].value.name);
    names
  }

  ghost function Meaning(s: Store): (p: Plain)
    requires Sound(s)
  {
    Plain(map name | name in Names(s.nodes) :: Contents(s, name).value,
          seq(|s.fds|, fd requires 0 <= fd < |s.fds| => HandleOf(s, fd)))
  }

  /** A write changes the file of its descriptor and no other. */
  lemma WriteMeans(s: Store, fd: nat, data: seq<Byte>, name: string)
    requires Sound(s) && Allowed(s, Writes(fd, data))
    ensures Contents(Write(s, fd, data).0, name) ==
            if name == FileOf(s, fd).name && CanWrite(s.fds[fd].value.mode) && Fits(s, fd, data)
            then Some(Overlay(FileOf(s, fd).bytes, PosOf(s, fd), data))
            else Contents(s, name)
  {
    WriteKeeps(s, fd, data);
    var t := Write(s, fd, data).0;
    ContentsOf(s, s.fds[fd].value.node);
    ContentsOf(t, s.fds[fd].value.node);
    assert forall k :: 0 <= k < |s.nodes| ==> (Named(s.nodes[k], name) <==> Named(t.nodes[k], name));
    assert Find(s.nodes, name) == Find(t.nodes, name);
  }

  lemma OpenMeans(s: Store, name: string, flags: nat, other: string)
    requires Sound(s) && CanOpen(s) && HasRoom(s, name, flags)
    ensures Contents(Open(s, name, flags).0, other) ==
            if other == name && Contents(s, name).None? && Creates(flags) then Some([]) else Contents(s, other)
  {
    var t := Open(s, name, flags).0;
    OpenSoundIff(s, name, flags);
    if Find(s.nodes, name) == |s.nodes| && Creates(flags) {
      var k := Free(s.nodes, 0);
      ContentsOf(t, k);
      if other != name {
        assert forall j :: 0 <= j < |s.nodes| ==> (Named(s.nodes[j], other) <==> Named(t.nodes[j], other));
        assert Find(s.nodes, other) == Find(t.nodes, other);
      }
    }
  }

  /** A successful open gives the lowest free descriptor from 3 on, at the start of the file of that
      name, with those flags as its mode; other descriptors stay, and without a file none is given. */
  lemma OpenGives(s: Store, name: string, flags: nat)
    requires Sound(s) && CanOpen(s) && HasRoom(s, name, flags)
    ensures var (t, r) := Open(s, name, flags);
            if Contents(s, name).None? && !Creates(flags) then r == -1 && t == s
            else
              && 3 <= r < |s.fds| && s.fds[r].None? && (forall k :: 3 <= k < r ==> s.fds[k].Some?)
              && IsOpen(t, r) && FileOf(t, r).name == name && PosOf(t, r) == 0 && t.fds[r].value.mode == flags
              && t.fds == s.fds[r := t.fds[r]]
  {
    hide Sound;
  }

  /** A read gets the bytes from the cursor on, as many as asked for or as there are, and moves the
      cursor behind them; without the mode to read it returns -4.  Nothing else changes. */
  lemma ReadMeans(s: Store, fd: nat, count: nat)
    requires Sound(s) && IsOpen(s, fd)
    ensures PosOf(s, fd) <= |FileOf(s, fd).bytes|
    ensures var (t, r, data) := Read(s, fd, count);
            var h, bytes := s.fds[fd].value, FileOf(s, fd).bytes;
            var n := if count < |bytes| - h.pos then count else |bytes| - h.pos;
            if CanRead(h.mode)
            then r == n && data == bytes[h.pos..h.pos + n] && t == s.(fds := s.fds[fd := Some(h.(pos := h.pos + n))])
            else r == -4 && data == [] && t == s
  {}

  /** A write returns how many bytes it has written, -4 without the mode to write, and -1 when they do
      not fit into 4 KiB; it moves its own cursor, behind them or, when they do not fit, back by one. */
  lemma WriteMoves(s: Store, fd: nat, data: seq<Byte>)
    requires Sound(s) && Allowed(s, Writes(fd, data))
    ensures var (t, r) := Write(s, fd, data);
            var h := s.fds[fd].value;
            var (moved, result) := if !CanWrite(h.mode) then (h.pos, -4)
                                   else if h.pos + |data| > 0x1000 then (h.pos - 1, -1)
                                   else (h.pos + |data|, |data|);
            r == result && moved >= 0 && t.fds == s.fds[fd := Some(h.(pos := moved))]
  {
    AllowedWrite(s, fd, data);
    hide Sound, Overlay;
    if CanWrite(s.fds[fd].value.mode) && !Fits(s, fd, data) {
      HandleFacts(s, fd);
    }
  }

  lemma {:induction false} FreeSame<A, B>(a: seq<Option<A>>, b: seq<Option<B>>, from: nat)
    requires from <= |a| == |b| && forall k :: 0 <= k < |a| ==> (a[k].Some? <==> b[k].Some?)
    ensures Free(a, from) == Free(b, from)
    decreases |a| - from
  {
    if from < |a| {
      FreeSame(a, b, from + 1);
    }
  }

  /** The plain machine can make the call too. */
  lemma AgreesAllowed(s: Store, e: Event)
    requires Sound(s) && Allowed(s, e)
    ensures PlainAllowed(Meaning(s), e)
    ensures e.Opens? ==> Free(Meaning(s).fds, 3) == Free(s.fds, 3)
    ensures !e.Opens? ==> IsOpen(s, e.fd) && Meaning(s).fds[e.fd] == HandleOf(s, e.fd)
                          && FileOf(s, e.fd).name in Meaning(s).files
                          && Meaning(s).files[FileOf(s, e.fd).name] == FileOf(s, e.fd).bytes
  {
    hide Find, Contents, CanOpen, HasRoom;
    if e.Opens? {
      FreeSame(Meaning(s).fds, s.fds, 3);
      OpenRoom(s, e);
    } else {
      MeaningFiles(s);
      ContentsAt(s, e.fd);
      hide Names;
    }
  }

  lemma OpenRoom(s: Store, e: Event)
    requires e.Opens? && Allowed(s, e)
    ensures 3 <= |s.fds| && Free(s.fds, 3) < |s.fds|
  {}

  lemma ContentsAt(s: Store, fd: nat)
    requires Sound(s) && IsOpen(s, fd)
    ensures Contents(s, FileOf(s, fd).name) == Some(FileOf(s, fd).bytes)
  {
    ContentsOf(s, s.fds[fd].value.node);
  }

  /** Two stores with the same files by name, but for one, and the same handles, but for one. */
  lemma MeaningUpdate(s: Store, t: Store, fd: nat, h: Handle, files: map<string, seq<Byte>>)
    requires Sound(s) && Sound(t) && fd < MAX_OPEN_FILES && HandleOf(t, fd) == Some(h)
    requires forall k :: 0 <= k < MAX_OPEN_FILES && k != fd ==> HandleOf(t, k) == HandleOf(s, k)
    requires forall name :: Contents(t, name) == if name in files then Some(files[name]) else None
    ensures Meaning(t) == Plain(files, Meaning(s).fds[fd := Some(h)])
  {
    MeaningFiles(t);
    assert |Meaning(s).fds| == |s.fds| == |Meaning(t).fds| == |t.fds| == MAX_OPEN_FILES;
    hide Contents, HandleOf, Sound;
    assert forall name :: name in Meaning(t).files <==> name in files;
    assert Meaning(t).files == files;
    assert Meaning(t).fds == Meaning(s).fds[fd := Some(h)];
  }

  lemma MeaningFiles(s: Store)
    requires Sound(s)
    ensures forall name :: Contents(s, name) == if name in Meaning(s).files then Some(Meaning(s).files[name]) else None
  {}

  lemma MoveAgrees(s: Store, fd: nat, pos: nat)
    requires Sound(s) && IsOpen(s, fd) && pos <= |FileOf(s, fd).bytes|
    ensures Sound(SetPos(s, fd, pos))
    ensures var m := Meaning(s);
            m.fds[fd] == HandleOf(s, fd) &&
            Meaning(SetPos(s, fd, pos)) == m.(fds := m.fds[fd := Some(m.fds[fd].value.(pos := pos))])
  {
    SetPosKeeps(s, fd, pos);
    MeaningFiles(s);
    var t := SetPos(s, fd, pos);
    assert forall name :: Contents(t, name) == Contents(s, name);
    MeaningUpdate(s, t, fd, HandleOf(s, fd).value.(pos := pos), Meaning(s).files);
  }

  lemma OpenHandles(s: Store, name: string, flags: nat)
    requires Sound(s) && CanOpen(s) && HasRoom(s, name, flags) && (Find(s.nodes, name) < |s.nodes| || Creates(flags))
    ensures var t, fd := Open(s, name, flags).0, Free(s.fds, 3);
            && Sound(t) && HandleOf(t, fd) == Some(Handle(name, 0, flags))
            && forall k :: 0 <= k < MAX_OPEN_FILES && k != fd ==> HandleOf(t, k) == HandleOf(s, k)
  {
    OpenSoundIff(s, name, flags);
    hide Find, Free;
  }

  lemma OpenAgrees(s: Store, name: string, flags: nat)
    requires Sound(s) && CanOpen(s) && HasRoom(s, name, flags)
    ensures Sound(Open(s, name, flags).0) && PlainAllowed(Meaning(s), Opens(name, flags))
    ensures var (t, r) := Open(s, name, flags);
            (Meaning(t), r, []) == PlainStep(Meaning(s), Opens(name, flags))
  {
    var (t, r) := Open(s, name, flags);
    var p := Meaning(s);
    OpenSoundIff(s, name, flags);
    AgreesAllowed(s, Opens(name, flags));
    MeaningFiles(s);
    if name in p.files || Creates(flags) {
      forall other
        ensures Contents(t, other) ==
                if other == name && Contents(s, name).None? && Creates(flags) then Some([]) else Contents(s, other)
      {
        OpenMeans(s, name, flags, other);
      }
      OpenHandles(s, name, flags);
      var fd := Free(s.fds, 3);
      hide Contents, Sound, Open, Meaning, HandleOf, Free;
      MeaningUpdate(s, t, fd, Handle(name, 0, flags), if name in p.files then p.files else p.files[name := []]);
    }
  }

  lemma WriteHandles(s: Store, fd: nat, data: seq<Byte>)
    requires Sound(s) && Allowed(s, Writes(fd, data)) && CanWrite(s.fds[fd].value.mode) && Fits(s, fd, data)
    ensures var t := Write(s, fd, data).0;
            && Sound(t) && HandleOf(t, fd) == Some(HandleOf(s, fd).value.(pos := PosOf(s, fd) + |data|))
            && forall k :: 0 <= k < MAX_OPEN_FILES && k != fd ==> HandleOf(t, k) == HandleOf(s, k)
  {
    WriteKeeps(s, fd, data);
  }

  lemma WriteMeaning(s: Store, fd: nat, data: seq<Byte>)
    requires Sound(s) && Allowed(s, Writes(fd, data)) && CanWrite(s.fds[fd].value.mode) && Fits(s, fd, data)
    ensures Sound(Write(s, fd, data).0)
    ensures var h, p := HandleOf(s, fd).value, Meaning(s);
            Meaning(Write(s, fd, data).0) ==
            Plain(p.files[h.name := Overlay(FileOf(s, fd).bytes, h.pos, data)],
                  p.fds[fd := Some(h.(pos := h.pos + |data|))])
  {
    var t := Write(s, fd, data).0;
    var h, p := HandleOf(s, fd).value, Meaning(s);
    var now := Overlay(FileOf(s, fd).bytes, h.pos, data);
    MeaningFiles(s);
    forall name
      ensures Contents(t, name) == if name == h.name then Some(now) else Contents(s, name)
    {
      WriteMeans(s, fd, data, name);
    }
    WriteHandles(s, fd, data);
    hide Contents, Sound, Overlay, Write, Meaning, HandleOf;
    MeaningUpdate(s, t, fd, h.(pos := h.pos + |data|), p.files[h.name := now]);
  }

  /** An open descriptor, on both sides. */
  lemma HandleFacts(s: Store, fd: nat)
    requires Sound(s) && IsOpen(s, fd)
    ensures fd < |s.fds| == MAX_OPEN_FILES && s.fds[fd].Some?
    ensures HandleOf(s, fd) == Some(Handle(FileOf(s, fd).name, PosOf(s, fd), s.fds[fd].value.mode))
    ensures PosOf(s, fd) <= |FileOf(s, fd).bytes| <= FILE_SIZE
  {}

  lemma RefusedIs(s: Store, fd: nat, data: seq<Byte>)
    requires IsOpen(s, fd) && CanWrite(s.fds[fd].value.mode) && !Fits(s, fd, data) && 0 < PosOf(s, fd) <= FILE_SIZE
    requires PosOf(s, fd) <= |FileOf(s, fd).bytes|
    ensures Write(s, fd, data) == (SetPos(s, fd, PosOf(s, fd) - 1), -1)
  {}

  lemma RefusedMoves(s: Store, fd: nat, data: seq<Byte>)
    requires Sound(s) && Allowed(s, Writes(fd, data)) && CanWrite(s.fds[fd].value.mode) && !Fits(s, fd, data)
    ensures Sound(Write(s, fd, data).0)
    ensures var h, p := HandleOf(s, fd).value, Meaning(s);
            h.pos > 0 && Write(s, fd, data).1 == -1 &&
            Meaning(Write(s, fd, data).0) == Plain(p.files, p.fds[fd := Some(h.(pos := h.pos - 1))])
  {
    hide *;
    AllowedWrite(s, fd, data);
    HandleFacts(s, fd);
    RefusedIs(s, fd, data);
    MoveAgrees(s, fd, PosOf(s, fd) - 1);
  }

  lemma AllowedWrite(s: Store, fd: nat, data: seq<Byte>)
    requires Allowed(s, Writes(fd, data))
    ensures IsOpen(s, fd) && PosOf(s, fd) <= |FileOf(s, fd).bytes|
    ensures CanWrite(s.fds[fd].value.mode) && !Fits(s, fd, data) ==> PosOf(s, fd) > 0
  {}

  /** What the plain machine does with a write, and with a read. */
  lemma PlainWriteIs(p: Plain, fd: nat, data: seq<Byte>, h: Handle, bytes: seq<Byte>)
    requires PlainAllowed(p, Writes(fd, data)) && p.fds[fd] == Some(h) && p.files[h.name] == bytes && h.pos <= |bytes|
    ensures PlainStep(p, Writes(fd, data)) ==
            if !CanWrite(h.mode) then (p, -EACCES, [])
            else if h.pos + |data| > FILE_SIZE
            then (Plain(p.files, p.fds[fd := Some(h.(pos := if h.pos > 0 then h.pos - 1 else 0))]), -1, [])
            else (Plain(p.files[h.name := Overlay(bytes, h.pos, data)], p.fds[fd := Some(h.(pos := h.pos + |data|))]),
                  |data|, [])
  {
    hide Overlay, CanWrite;
  }

  lemma PlainReadIs(p: Plain, fd: nat, count: nat, h: Handle, bytes: seq<Byte>)
    requires PlainAllowed(p, Reads(fd, count)) && p.fds[fd] == Some(h) && p.files[h.name] == bytes && h.pos <= |bytes|
    ensures var data := Got(bytes, h.pos, count);
            PlainStep(p, Reads(fd, count)) ==
            if !CanRead(h.mode) then (p, -EACCES, [])
            else (p.(fds := p.fds[fd := Some(h.(pos := h.pos + |data|))]), |data|, data)
  {
    hide Got, CanRead;
  }

  lemma WriteIs(s: Store, fd: nat, data: seq<Byte>)
    requires IsOpen(s, fd) && PosOf(s, fd) <= |FileOf(s, fd).bytes|
    ensures !CanWrite(s.fds[fd].value.mode) ==> Write(s, fd, data) == (s, -EACCES)
    ensures CanWrite(s.fds[fd].value.mode) && Fits(s, fd, data) ==> Write(s, fd, data).1 == |data|
    ensures Fits(s, fd, data) <==> PosOf(s, fd) + |data| <= FILE_SIZE
  {
    hide CanWrite;
  }

  lemma ReadIs(s: Store, fd: nat, count: nat)
    requires IsOpen(s, fd) && PosOf(s, fd) <= |FileOf(s, fd).bytes|
    ensures var data := Got(FileOf(s, fd).bytes, PosOf(s, fd), count);
            && PosOf(s, fd) + |data| <= |FileOf(s, fd).bytes|
            && Read(s, fd, count) == if !CanRead(s.fds[fd].value.mode) then (s, -EACCES, [])
                                     else (SetPos(s, fd, PosOf(s, fd) + |data|), |data|, data)
  {
    hide CanRead;
  }

  lemma WriteAgrees(s: Store, fd: nat, data: seq<Byte>)
    requires Sound(s) && Allowed(s, Writes(fd, data))
    ensures Sound(Write(s, fd, data).0) && PlainAllowed(Meaning(s), Writes(fd, data))
    ensures var (t, r) := Write(s, fd, data);
            (Meaning(t), r, []) == PlainStep(Meaning(s), Writes(fd, data))
  {
    hide *;
    AgreesAllowed(s, Writes(fd, data));
    HandleFacts(s, fd);
    WriteIs(s, fd, data);
    PlainWriteIs(Meaning(s), fd, data, HandleOf(s, fd).value, FileOf(s, fd).bytes);
    if CanWrite(s.fds[fd].value.mode) {
      if Fits(s, fd, data) {
        WriteMeaning(s, fd, data);
      } else {
        RefusedMoves(s, fd, data);
      }
    }
  }

  lemma ReadAgrees(s: Store, fd: nat, count: nat)
    requires Sound(s) && Allowed(s, Reads(fd, count))
    ensures Sound(Read(s, fd, count).0) && PlainAllowed(Meaning(s), Reads(fd, count))
    ensures var (t, r, data) := Read(s, fd, count);
            (Meaning(t), r, data) == PlainStep(Meaning(s), Reads(fd, count))
  {
    hide *;
    AgreesAllowed(s, Reads(fd, count));
    HandleFacts(s, fd);
    ReadIs(s, fd, count);
    PlainReadIs(Meaning(s), fd, count, HandleOf(s, fd).value, FileOf(s, fd).bytes);
    MoveAgrees(s, fd, PosOf(s, fd) + |Got(FileOf(s, fd).bytes, PosOf(s, fd), count)|);
  }

  lemma SeekAgrees(s: Store, fd: nat, offset: int, whence: int)
    requires Sound(s) && Allowed(s, Seeks(fd, offset, whence))
    ensures Sound(Seek(s, fd, offset, whence).0) && PlainAllowed(Meaning(s), Seeks(fd, offset, whence))
    ensures var (t, r) := Seek(s, fd, offset, whence);
            (Meaning(t), r, []) == PlainStep(Meaning(s), Seeks(fd, offset, whence))
  {
    AgreesAllowed(s, Seeks(fd, offset, whence));
    var x := Target(|FileOf(s, fd).bytes|, PosOf(s, fd), offset, whence);
    if 0 <= x <= |FileOf(s, fd).bytes| {
      MoveAgrees(s, fd, x);
    }
    hide Meaning, Sound, SetPos, Target, Allowed;
  }

  /** Each call does to the files by name and to the handles what the plain machine says, and
      returns the same. */
  lemma StepAgrees(s: Store, e: Event)
    requires Sound(s) && Allowed(s, e)
    ensures Sound(Step(s, e).0) && PlainAllowed(Meaning(s), e)
    ensures (Meaning(Step(s, e).0), Step(s, e).1, Step(s, e).2) == PlainStep(Meaning(s), e)
  {
    hide Meaning, Sound, Open, Read, Write, Seek, PlainStep, PlainAllowed;
    match e {
      case Opens(name, flags) => OpenAgrees(s, name, flags);
      case Writes(fd, data) => WriteAgrees(s, fd, data);
      case Reads(fd, count) => ReadAgrees(s, fd, count);
      case Seeks(fd, offset, whence) => SeekAgrees(s, fd, offset, whence);
    }
  }

  // ---- runs ----

  /** These calls, each allowed when it is made, lead from `s` to `t` and return `results`. */
  ghost predicate Follows(s: Store, events: seq<Event>, results: seq<(int, seq<Byte>)>, t: Store)
    decreases |events|
  {
    if events == [] then s == t && results == []
    else
      && Allowed(s, events[0]) && results != []
      && results[0] == (Step(s, events[0]).1, Step(s, events[0]).2)
      && Follows(Step(s, events[0]).0, events[1..], results[1..], t)
  }

  ghost predicate PlainFollows(p: Plain, events: seq<Event>, results: seq<(int, seq<Byte>)>, q: Plain)
    decreases |events|
  {
    if events == [] then p == q && results == []
    else
      && PlainAllowed(p, events[0]) && results != []
      && results[0] == (PlainStep(p, events[0]).1, PlainStep(p, events[0]).2)
      && PlainFollows(PlainStep(p, events[0]).0, events[1..], results[1..], q)
  }

  /** Over every run the store agrees with the map from names to bytes and the handles, and
      every cursor stays within its file. */
  lemma {:induction false} RunAgrees(s: Store, events: seq<Event>, results: seq<(int, seq<Byte>)>, t: Store)
    requires Sound(s) && Follows(s, events, results, t)
    ensures Sound(t) && PlainFollows(Meaning(s), events, results, Meaning(t))
    decreases |events|
  {
    if events != [] {
      StepAgrees(s, events[0]);
      hide Step, Meaning, Sound, PlainStep, Allowed, PlainAllowed;
      RunAgrees(Step(s, events[0]).0, events[1..], results[1..], t);
    }
  }

  /** What was written can be read back, through any descriptor of the file whose cursor is
      where the write began. */
  lemma ReadBack(s: Store, fd: nat, data: seq<Byte>, other: nat)
    requires Sound(s) && Allowed(s, Writes(fd, data)) && CanWrite(s.fds[fd].value.mode) && Fits(s, fd, data)
    requires IsOpen(s, other) && CanRead(s.fds[other].value.mode) && s.fds[other].value.node == s.fds[fd].value.node
    ensures var t := Seek(Write(s, fd, data).0, other, PosOf(s, fd), SEEK_SET);
            t.1 == PosOf(s, fd) && Read(t.0, other, |data|).2 == data
  {
    var bytes, pos := FileOf(s, fd).bytes, PosOf(s, fd);
    var now := Overlay(bytes, pos, data);
    assert now[pos..pos + |data|] == data;
    var w := Write(s, fd, data).0;
    assert FileOf(w, other).bytes == now;
    assert ToInt(pos) == pos;
  }

  // ---- the inode table and the file memory, changed in place ----

  /** `[sPos, ePos)` is the memory of the file, which is used up to `maxPos`. */
  datatype Inode = Inode(isValid: bool, filename: string, sPos: nat, ePos: nat, maxPos: nat, fileSize: nat)

  /** Files of 4 KiB that do not share memory. */
  ghost predicate Placed(inodes: seq<Inode>, size: nat) {
    && (forall i :: 0 <= i < |inodes| ==>
          && inodes[i].sPos <= inodes[i].maxPos <= inodes[i].ePos == inodes[i].sPos + FILE_SIZE <= size
          && inodes[i].fileSize == inodes[i].maxPos - inodes[i].sPos)
    && (forall i, j :: 0 <= i < |inodes| && 0 <= j < |inodes| && i != j ==>
          inodes[i].ePos <= inodes[j].sPos || inodes[j].ePos <= inodes[i].sPos)
  }

  function NodeOf(n: Inode, memory: seq<Byte>): Option<File> {
    if n.isValid && n.sPos <= n.maxPos <= |memory| then Some(File(n.filename, memory[n.sPos..n.maxPos])) else None
  }

  function NodesOf(inodes: seq<Inode>, memory: seq<Byte>): (nodes: seq<Option<File>>)
    ensures |nodes| == |inodes|
  {
    seq(|inodes|, i requires 0 <= i < |inodes| => NodeOf(inodes[i], memory))
  }

  function Extended(n: Inode, end: int): Inode
    requires n.sPos <= n.maxPos
  {
    var top: nat := if n.sPos + end > n.maxPos then n.sPos + end else n.maxPos;
    n.(maxPos := top, fileSize := top - n.sPos)
  }

  function NewInode(n: Inode, name: string): Inode {
    n.(isValid := true, filename := name, maxPos := n.sPos, fileSize := 0)
  }

  lemma PlacedAt(inodes: seq<Inode>, size: nat, i: nat)
    requires Placed(inodes, size) && i < |inodes|
    ensures var n := inodes[i];
            n.sPos <= n.maxPos <= n.ePos == n.sPos + FILE_SIZE <= size && n.fileSize == n.maxPos - n.sPos
  {}

  lemma GrownPlaced(inodes: seq<Inode>, size: nat, i: nat, end: int)
    requires Placed(inodes, size) && i < |inodes| && end <= FILE_SIZE
    ensures inodes[i].sPos <= inodes[i].maxPos && Placed(inodes[i := Extended(inodes[i], end)], size)
  {}

  lemma NewNode(inodes: seq<Inode>, memory: seq<Byte>, k: nat, name: string)
    requires Placed(inodes, |memory|) && k < |inodes|
    ensures var next := inodes[k := NewInode(inodes[k], name)];
            && Placed(next, |memory|)
            && NodesOf(next, memory) == NodesOf(inodes, memory)[k := Some(File(name, []))]
  {
    assert memory[inodes[k].sPos..inodes[k].sPos] == [];
  }

  /** A read within one file, in the memory of all. */
  lemma GotSlice(memory: seq<Byte>, lo: nat, hi: nat, pos: nat, count: nat)
    requires lo <= hi <= |memory| && pos <= hi - lo
    ensures var size := if count > hi - lo - pos then hi - lo - pos else count;
            Got(memory[lo..hi], pos, count) == memory[lo + pos..lo + pos + size]
  {
    var size := if count > hi - lo - pos then hi - lo - pos else count;
    var got, want := Got(memory[lo..hi], pos, count), memory[lo + pos..lo + pos + size];
    assert |got| == |want|;
    forall x | 0 <= x < size
      ensures got[x] == want[x]
    {
      assert want[x] == memory[lo + pos + x] == memory[lo..hi][pos + x];
    }
  }

  lemma OverlaySlice(was: seq<Byte>, now: seq<Byte>, lo: nat, hi: nat, pos: nat, data: seq<Byte>)
    requires lo <= hi <= |was| && pos <= hi - lo && lo + pos + |data| <= |was|
    requires now == was[..lo + pos] + data + was[lo + pos + |data|..]
    ensures var top := if lo + pos + |data| > hi then lo + pos + |data| else hi;
            now[lo..top] == Overlay(was[lo..hi], pos, data)
  {
    var top := if lo + pos + |data| > hi then lo + pos + |data| else hi;
    var out := Overlay(was[lo..hi], pos, data);
    assert |out| == top - lo;
    forall x | 0 <= x < top - lo
      ensures now[lo..top][x] == out[x]
    {
      assert now[lo..top][x] == now[lo + x];
      if x >= pos && x >= pos + |data| {
        assert now[lo + x] == was[lo + x] == was[lo..hi][x] == was[lo..hi][pos + |data|..][x - pos - |data|];
      }
    }
  }

  /** Bytes written into the memory of one file are a write to that file alone. */
  lemma WrittenNodes(inodes: seq<Inode>, was: seq<Byte>, now: seq<Byte>, k: nat, pos: nat, data: seq<Byte>)
    requires Placed(inodes, |was|) && |now| == |was| && k < |inodes| && inodes[k].isValid
    requires pos <= inodes[k].fileSize && pos + |data| <= FILE_SIZE
    requires var at := inodes[k].sPos + pos;
             now == was[..at] + data + was[at + |data|..]
    ensures var next := inodes[k := Extended(inodes[k], pos + |data|)];
            && Placed(next, |now|) && NodesOf(inodes, was)[k].Some?
            && NodesOf(next, now) == NodesOf(inodes, was)[k := Some(NodesOf(inodes, was)[k].value.(
                 bytes := Overlay(NodesOf(inodes, was)[k].value.bytes, pos, data)))]
  {
    var next := inodes[k := Extended(inodes[k], pos + |data|)];
    var n, at := inodes[k], inodes[k].sPos + pos;
    forall i | 0 <= i < |inodes| && i != k
      ensures NodeOf(next[i], now) == NodeOf(inodes[i], was)
    {
      var o := inodes[i];
      assert o.ePos <= n.sPos || n.ePos <= o.sPos;
      assert forall x :: o.sPos <= x < o.maxPos ==> now[x] == was[x];
      assert now[o.sPos..o.maxPos] == was[o.sPos..o.maxPos];
    }
    OverlaySlice(was, now, n.sPos, n.maxPos, pos, data);
    hide Overlay;
  }

  /** How much a read at offset `offp` gets. */
  function ReadSize(n: Inode, count: nat, offp: int): nat {
    if n.fileSize <= offp then 0 else if count > n.fileSize - offp then n.fileSize - offp else count
  }

  /** The bytes that it gets. */
  function ReadBytes(n: Inode, memory: seq<Byte>, count: nat, offp: int): (data: seq<Byte>)
    requires n.sPos + offp >= 0 && n.fileSize == n.maxPos - n.sPos && n.maxPos <= |memory|
    ensures |data| == ReadSize(n, count, offp)
  {
    var size := ReadSize(n, count, offp);
    if size == 0 then [] else Slice(memory, n.sPos + offp, size)
  }

  function Slice(memory: seq<Byte>, at: nat, size: nat): (data: seq<Byte>)
    requires at + size <= |memory|
    ensures |data| == size
  {
    memory[at..at + size]
  }

  lemma ReadBytesAre(n: Inode, memory: seq<Byte>, count: nat, offp: int)
    requires n.sPos + offp >= 0 && n.fileSize == n.maxPos - n.sPos && n.maxPos <= |memory|
    ensures n.fileSize <= offp ==> ReadBytes(n, memory, count, offp) == []
    ensures n.fileSize > offp ==>
              var size := if count > n.fileSize - offp then n.fileSize - offp else count;
              ReadBytes(n, memory, count, offp) == Slice(memory, n.sPos + offp, size)
  {}

  /** The buffer with `data` at its start. */
  function Filled(buf: seq<Byte>, data: seq<Byte>): seq<Byte>
    requires |data| <= |buf|
  {
    data + buf[|data|..]
  }

  lemma FilledByNothing(buf: seq<Byte>)
    ensures Filled(buf, []) == buf
  {}

  /** `data` over the memory from `at` on. */
  function Splat(memory: seq<Byte>, at: nat, data: seq<Byte>): seq<Byte>
    requires at + |data| <= |memory|
  {
    memory[..at] + data + memory[at + |data|..]
  }

  /** The inode table, the memory of all files and the descriptors. */
  datatype Disk = Disk(inodes: seq<Inode>, memory: seq<Byte>, fds: seq<Option<Cursor>>)

  function ViewOf(d: Disk): Store { Store(NodesOf(d.inodes, d.memory), d.fds) }

  /** The descriptor refers to a file, and its cursor, taken as an `int`, to memory. */
  ghost predicate Usable(d: Disk, fd: nat) {
    && Placed(d.inodes, |d.memory|) && IsOpen(ViewOf(d), fd)
    && d.inodes[d.fds[fd].value.node].sPos + ToInt(d.fds[fd].value.pos) >= 0
  }

  lemma UsableFacts(d: Disk, fd: nat)
    requires Usable(d, fd)
    ensures fd < |d.fds| && d.fds[fd].Some? && d.fds[fd].value.node < |d.inodes|
    ensures d.inodes[d.fds[fd].value.node].sPos + ToInt(d.fds[fd].value.pos) >= 0
  {}

  /** The seek, with the sizes and the `unsigned` comparison of the code. */
  lemma SeekIs(d: Disk, fd: nat, offset: int, whence: int)
    requires Placed(d.inodes, |d.memory|) && IsOpen(ViewOf(d), fd)
    ensures fd < |d.fds| && d.fds[fd].Some? && d.fds[fd].value.node < |d.inodes| && WORD32 > 0
    ensures SEEK_SET != SEEK_CUR && SEEK_CUR != SEEK_END && SEEK_SET != SEEK_END
    ensures var f := d.fds[fd].value;
            var size := d.inodes[f.node].fileSize;
            var x := ToInt(if whence == SEEK_SET then offset else if whence == SEEK_CUR then f.pos + offset
                           else size + offset);
            if (whence == SEEK_SET || whence == SEEK_CUR || whence == SEEK_END) && x % WORD32 <= size
            then x >= 0 &&
                 Seek(ViewOf(d), fd, offset, whence) == (ViewOf(d.(fds := d.fds[fd := Some(f.(pos := x))])), x)
            else Seek(ViewOf(d), fd, offset, whence) == (ViewOf(d), -EINVAL)
  {
    var size := d.inodes[d.fds[fd].value.node].fileSize;
    assert size == |FileOf(ViewOf(d), fd).bytes|;
    hide NodesOf, Placed;
  }

  function Moved(d: Disk, fd: nat, step: int): Disk
    requires fd < |d.fds| && d.fds[fd].Some?
  {
    var f := d.fds[fd].value;
    d.(fds := d.fds[fd := Some(f.(pos := (f.pos + step) % WORD32))])
  }

  /** A read, wherever the cursor is. */
  ghost function RawRead(d: Disk, fd: nat, count: nat): (Disk, int, seq<Byte>)
    requires Usable(d, fd)
  {
    var f := d.fds[fd].value;
    var data := ReadBytes(d.inodes[f.node], d.memory, count, ToInt(f.pos));
    if !CanRead(f.mode) then (d, -EACCES, []) else (Moved(d, fd, |data|), |data|, data)
  }

  /** `data` written at offset `offp` of inode `i`, unless it does not fit. */
  ghost function Written(d: Disk, i: nat, data: seq<Byte>, offp: int): Disk
    requires Placed(d.inodes, |d.memory|) && i < |d.inodes| && d.inodes[i].sPos + offp >= 0
  {
    PlacedAt(d.inodes, |d.memory|, i);
    if offp + |data| > FILE_SIZE then d
    else Disk(d.inodes[i := Extended(d.inodes[i], offp + |data|)], Splat(d.memory, d.inodes[i].sPos + offp, data),
      d.fds)
  }

  /** A write, wherever the cursor is. */
  ghost function RawWrite(d: Disk, fd: nat, data: seq<Byte>): (Disk, int)
    requires Usable(d, fd)
  {
    var f := d.fds[fd].value;
    var offp := ToInt(f.pos);
    var r := if offp + |data| > FILE_SIZE then -1 else |data|;
    if !CanWrite(f.mode) then (d, -EACCES) else (Moved(Written(d, f.node, data, offp), fd, r), r)
  }

  /** What those come to. */
  lemma WrittenIs(d: Disk, i: nat, data: seq<Byte>, offp: int)
    requires Placed(d.inodes, |d.memory|) && i < |d.inodes| && d.inodes[i].sPos + offp >= 0
    ensures offp + |data| > FILE_SIZE ==> Written(d, i, data, offp) == d
    ensures offp + |data| <= FILE_SIZE ==>
              var at := d.inodes[i].sPos + offp;
              && at + |data| <= |d.memory| && d.inodes[i].sPos <= d.inodes[i].maxPos
              && Written(d, i, data, offp) == d.(memory := Splat(d.memory, at, data))
                                               .(inodes := d.inodes[i := Extended(d.inodes[i], offp + |data|)])
    ensures Written(d, i, data, offp).fds == d.fds
  {
    PlacedAt(d.inodes, |d.memory|, i);
  }

  lemma RawReadIs(d: Disk, fd: nat, count: nat)
    requires Usable(d, fd)
    ensures var f := d.fds[fd].value;
            var n := d.inodes[f.node];
            && n.sPos + ToInt(f.pos) >= 0 && n.fileSize == n.maxPos - n.sPos && n.maxPos <= |d.memory|
            && var data := ReadBytes(n, d.memory, count, ToInt(f.pos));
               RawRead(d, fd, count) ==
               if !CanRead(f.mode) then (d, -EACCES, [])
               else (d.(fds := d.fds[fd := Some(f.(pos := (f.pos + |data|) % WORD32))]), |data|, data)
  {}

  lemma RawWriteIs(d: Disk, fd: nat, data: seq<Byte>)
    requires Usable(d, fd)
    ensures WORD32 > 0
    ensures var f := d.fds[fd].value;
            && d.inodes[f.node].sPos + ToInt(f.pos) >= 0
            && var t, r := Written(d, f.node, data, ToInt(f.pos)),
                           if ToInt(f.pos) + |data| > FILE_SIZE then -1 else |data|;
               && t.fds == d.fds
               && RawWrite(d, fd, data) ==
                  if !CanWrite(f.mode) then (d, -EACCES)
                  else (t.(fds := d.fds[fd := Some(f.(pos := (f.pos + r) % WORD32))]), r)
  {
    WrittenIs(d, d.fds[fd].value.node, data, ToInt(d.fds[fd].value.pos));
    hide Placed, ToInt;
  }

  /** The cursor is within its file. */
  predicate Within(s: Store, fd: nat) { IsOpen(s, fd) && PosOf(s, fd) <= |FileOf(s, fd).bytes| }

  lemma WithinFacts(d: Disk, fd: nat)
    requires Placed(d.inodes, |d.memory|) && Within(ViewOf(d), fd)
    ensures var f := d.fds[fd].value;
            var n := d.inodes[f.node];
            && n.isValid && ToInt(f.pos) == f.pos <= n.fileSize == |FileOf(ViewOf(d), fd).bytes| <= FILE_SIZE
            && FileOf(ViewOf(d), fd).bytes == d.memory[n.sPos..n.maxPos] && Usable(d, fd)
  {
    assert ViewOf(d).nodes[d.fds[fd].value.node] == NodeOf(d.inodes[d.fds[fd].value.node], d.memory);
  }

  /** Within the file that is the read of its bytes. */
  lemma ReadRefines(d: Disk, fd: nat, count: nat)
    requires Placed(d.inodes, |d.memory|) && Within(ViewOf(d), fd)
    ensures Usable(d, fd)
    ensures var (t, r, data) := RawRead(d, fd, count);
            (ViewOf(t), r, data) == Read(ViewOf(d), fd, count)
  {
    WithinFacts(d, fd);
    var f := d.fds[fd].value;
    var n := d.inodes[f.node];
    GotSlice(d.memory, n.sPos, n.maxPos, f.pos, count);
    hide NodesOf, Got;
  }

  /** Within the file that is a write to that file alone. */
  lemma WriteRefines(d: Disk, fd: nat, data: seq<Byte>)
    requires Placed(d.inodes, |d.memory|) && Within(ViewOf(d), fd)
    ensures Usable(d, fd)
    ensures var (t, r) := RawWrite(d, fd, data);
            (ViewOf(t), r) == Write(ViewOf(d), fd, data)
  {
    WithinFacts(d, fd);
    var f := d.fds[fd].value;
    var n := d.inodes[f.node];
    if f.pos + |data| <= FILE_SIZE {
      WrittenNodes(d.inodes, d.memory, Splat(d.memory, n.sPos + f.pos, data), f.node, f.pos, data);
    }
    hide NodesOf, Overlay, Splat, Placed;
  }

  /** The descriptor's cursor is at offset -1, where a refused write at the start of a file leaves it,
      and file `j` fills the memory before the file. */
  ghost predicate AtMinusOne(d: Disk, fd: nat, j: nat) {
    && Usable(d, fd) && ToInt(d.fds[fd].value.pos) == -1
    && j < |d.inodes| && d.inodes[j].isValid && d.inodes[j].fileSize == FILE_SIZE
    && j != d.fds[fd].value.node && d.inodes[j].ePos == d.inodes[d.fds[fd].value.node].sPos
  }

  lemma MinusOneFacts(d: Disk, fd: nat, j: nat)
    requires AtMinusOne(d, fd, j)
    ensures fd < |d.fds| && d.fds[fd].Some? && Placed(d.inodes, |d.memory|)
    ensures var i := d.fds[fd].value.node;
            i < |d.inodes| && d.inodes[i].isValid && j < |d.inodes| && d.inodes[i].sPos - 1 >= 0
            && ViewOf(d).nodes[i].Some? && ViewOf(d).nodes[j].Some? && |ViewOf(d).nodes[j].value.bytes| == FILE_SIZE
  {
    BeforeStart(d.inodes, d.memory, d.fds[fd].value.node, j);
  }

  lemma MinusOneMoves(pos: nat, n: nat)
    requires ToInt(pos) == -1 && 0 < n < WORD32
    ensures (pos + n) % WORD32 == n - 1
  {}

  /** A write from there: its first byte replaces the last one of file `j`, and only the others go to
      the file itself. */
  lemma WriteBeforeStart(d: Disk, fd: nat, j: nat, data: seq<Byte>)
    requires AtMinusOne(d, fd, j) && CanWrite(d.fds[fd].value.mode) && 0 < |data| <= FILE_SIZE + 1
    ensures var f := d.fds[fd].value;
            var (t, r) := RawWrite(d, fd, data);
            var was := ViewOf(d).nodes;
            && was[f.node].Some? && was[j].Some? && |was[j].value.bytes| == FILE_SIZE
            && r == |data| && t.fds == d.fds[fd := Some(f.(pos := |data| - 1))]
            && ViewOf(t).nodes ==
               was[j := Some(was[j].value.(bytes := was[j].value.bytes[FILE_SIZE - 1 := data[0]]))]
                  [f.node := Some(was[f.node].value.(bytes := Overlay(was[f.node].value.bytes, 0, data[1..])))]
  {
    MinusOneFacts(d, fd, j);
    MinusOneMoves(d.fds[fd].value.pos, |data|);
    RawWriteIs(d, fd, data);
    WrittenIs(d, d.fds[fd].value.node, data, -1);
    WrittenBeforeStart(d.inodes, d.memory, d.fds[fd].value.node, j, data);
    hide NodesOf, Overlay, Placed, Splat, Extended, Written, RawWrite, ToInt;
  }

  /** A read from there gets the last byte of file `j` before those of the file itself. */
  lemma ReadBeforeStart(d: Disk, fd: nat, j: nat, count: nat)
    requires AtMinusOne(d, fd, j) && CanRead(d.fds[fd].value.mode)
    ensures var f := d.fds[fd].value;
            var (t, r, data) := RawRead(d, fd, count);
            var was := ViewOf(d).nodes;
            && was[f.node].Some? && was[j].Some? && |was[j].value.bytes| == FILE_SIZE
            && ViewOf(t).nodes == was && r == |data|
            && data == Got([was[j].value.bytes[FILE_SIZE - 1]] + was[f.node].value.bytes, 0, count)
  {
    MinusOneFacts(d, fd, j);
    RawReadIs(d, fd, count);
    BeforeStart(d.inodes, d.memory, d.fds[fd].value.node, j);
    var n, o := d.inodes[d.fds[fd].value.node], d.inodes[j];
    PlacedAt(d.inodes, |d.memory|, d.fds[fd].value.node);
    PlacedAt(d.inodes, |d.memory|, j);
    assert ViewOf(d).nodes[d.fds[fd].value.node] == NodeOf(n, d.memory) && ViewOf(d).nodes[j] == NodeOf(o, d.memory);
    hide NodesOf, Placed, RawRead, ToInt, Got;
    OneBefore(d.memory, o.sPos, n.sPos, n.maxPos, count);
    ReadBytesAre(n, d.memory, count, -1);
  }

  lemma OneBefore(memory: seq<Byte>, lo: nat, mid: nat, hi: nat, count: nat)
    requires lo < mid <= hi <= |memory| && mid == lo + FILE_SIZE
    ensures var size := if count > hi - mid + 1 then hi - mid + 1 else count;
            Got([memory[lo..mid][FILE_SIZE - 1]] + memory[mid..hi], 0, count) == Slice(memory, mid - 1, size)
  {
    assert [memory[lo..mid][FILE_SIZE - 1]] + memory[mid..hi] == memory[mid - 1..hi];
    GotSlice(memory, mid - 1, hi, 0, count);
  }

  /** Bytes put one before the memory of file `i`. */
  lemma WrittenBeforeStart(inodes: seq<Inode>, memory: seq<Byte>, i: nat, j: nat, data: seq<Byte>)
    requires Placed(inodes, |memory|) && i < |inodes| && j < |inodes| && i != j
    requires inodes[i].isValid && inodes[j].isValid
    requires inodes[j].ePos == inodes[i].sPos && inodes[j].fileSize == FILE_SIZE
    requires 0 < |data| <= FILE_SIZE + 1
    ensures inodes[i].sPos > 0 && inodes[i].sPos - 1 + |data| <= |memory|
    ensures var was := NodesOf(inodes, memory);
            var now := NodesOf(inodes[i := Extended(inodes[i], |data| - 1)],
                               Splat(memory, inodes[i].sPos - 1, data));
            && was[i].Some? && was[j].Some? && |was[j].value.bytes| == FILE_SIZE
            && now == was[j := Some(was[j].value.(bytes := was[j].value.bytes[FILE_SIZE - 1 := data[0]]))]
                         [i := Some(was[i].value.(bytes := Overlay(was[i].value.bytes, 0, data[1..])))]
  {
    BeforeStart(inodes, memory, i, j);
    var at := inodes[i].sPos;
    hide NodesOf, Overlay, Placed, Splat, Extended;
    SplatTwice(memory, at - 1, data);
    var mid := Splat(memory, at - 1, [data[0]]);
    WrittenNodes(inodes, memory, mid, j, FILE_SIZE - 1, [data[0]]);
    WrittenNodes(inodes, mid, Splat(memory, at - 1, data), i, 0, data[1..]);
    LastOverlaid(NodesOf(inodes, memory)[j].value.bytes, data[0]);
  }

  /** The file in front of a file, when it fills its memory. */
  lemma BeforeStart(inodes: seq<Inode>, memory: seq<Byte>, i: nat, j: nat)
    requires Placed(inodes, |memory|) && i < |inodes| && j < |inodes|
    requires inodes[i].isValid && inodes[j].isValid
    requires inodes[j].ePos == inodes[i].sPos && inodes[j].fileSize == FILE_SIZE
    ensures inodes[i].sPos == inodes[j].sPos + FILE_SIZE && inodes[i].sPos + FILE_SIZE <= |memory|
    ensures inodes[j := Extended(inodes[j], FILE_SIZE)] == inodes && Extended(inodes[j], FILE_SIZE) == inodes[j]
    ensures NodesOf(inodes, memory)[i].Some? && NodesOf(inodes, memory)[j].Some?
    ensures |NodesOf(inodes, memory)[j].value.bytes| == FILE_SIZE
  {}

  /** Putting bytes is putting the first, and then the others behind it. */
  lemma SplatTwice(memory: seq<Byte>, at: nat, data: seq<Byte>)
    requires data != [] && at + |data| <= |memory|
    ensures |data[1..]| == |data| - 1 && |Splat(memory, at, [data[0]])| == |Splat(memory, at, data)| == |memory|
    ensures Splat(memory, at, [data[0]]) == memory[..at] + [data[0]] + memory[at + |[data[0]]|..]
    ensures var mid := Splat(memory, at, [data[0]]);
            Splat(memory, at, data) == mid[..at + 1] + data[1..] + mid[at + 1 + |data[1..]|..]
  {
    var mid := Splat(memory, at, [data[0]]);
    assert mid[..at + 1] == memory[..at] + [data[0]] && [data[0]] + data[1..] == data;
    assert mid[at + |data|..] == memory[at + |data|..];
  }

  lemma LastOverlaid(bytes: seq<Byte>, b: Byte)
    requires |bytes| == FILE_SIZE
    ensures Overlay(bytes, FILE_SIZE - 1, [b]) == bytes[FILE_SIZE - 1 := b]
  {}

  class FileSystem {
    const memory: array<Byte>
    const inodes: array<Inode>
    var numFiles: nat
    const files: array<Option<Cursor>>

    ghost predicate Valid()
      reads this, inodes, files
    {
      && inodes.Length == NUM_FILES && files.Length == MAX_OPEN_FILES
      && Placed(inodes[..], memory.Length)
    }

    ghost function Now(): Disk
      reads this, memory, inodes, files
    {
      Disk(inodes[..], memory[..], files[..])
    }

    ghost function View(): Store
      reads this, memory, inodes, files
    {
      ViewOf(Now())
    }

    /** `alloc_inodes`, for a process without open files */
    constructor ()
      ensures Valid() && Sound(View())
      ensures View() == Store(seq(NUM_FILES, _ => None), seq(MAX_OPEN_FILES, _ => None))
      ensures fresh(memory) && fresh(inodes) && fresh(files)
    {
      memory := new Byte[NUM_FILES * FILE_SIZE](_ => 0);
      inodes := new Inode[NUM_FILES](i requires i >= 0 =>
        Inode(false, "", i * FILE_SIZE, (i + 1) * FILE_SIZE, i * FILE_SIZE, 0));
      files := new Option<Cursor>[MAX_OPEN_FILES](_ => None);
      numFiles := 0;
      new;
      assert forall i :: 0 <= i < NUM_FILES ==> inodes[i].sPos == i * FILE_SIZE;
      assert View().nodes == seq(NUM_FILES, _ => None) && files[..] == seq(MAX_OPEN_FILES, _ => None);
    }

    /** `flat_lookup_inode` */
    method LookupInode(name: string) returns (i: nat)
      requires Valid()
      ensures i == Find(View().nodes, name) && i <= NUM_FILES
    {
      i := 0;
      while i < NUM_FILES
        invariant i <= NUM_FILES && forall k :: 0 <= k < i ==> !Named(View().nodes[k], name)
      {
        assert View().nodes[i] == NodeOf(inodes[i], memory[..]);
        if inodes[i].isValid && inodes[i].filename == name { return; }
        i := i + 1;
      }
    }

    /** `get_free_inode` */
    method GetFreeInode() returns (r: int)
      requires Valid()
      ensures var i := Free(View().nodes, 0); r == if i < NUM_FILES then i else -1
    {
      var i := 0;
      while i < NUM_FILES
        invariant 0 <= i <= NUM_FILES && forall k :: 0 <= k < i ==> View().nodes[k].Some?
      {
        assert View().nodes[i] == NodeOf(inodes[i], memory[..]);
        if !inodes[i].isValid { return i; }
        i := i + 1;
      }
      r := -1;
    }

    /** `flat_create_inode`: an empty file in the first free inode, if the name is new. */
    method CreateInode(name: string) returns (r: int)
      requires Valid()
      modifies this`numFiles, inodes
      ensures var nodes := old(View().nodes);
              var i := Free(nodes, 0);
              && r == (if Find(nodes, name) == NUM_FILES && i < NUM_FILES then i else -1)
              && View().nodes == if r < 0 then nodes else nodes[i := Some(File(name, []))]
      ensures Valid() && numFiles == old(numFiles) + if r < 0 then 0 else 1
    {
      var i := GetFreeInode();
      var k := LookupInode(name);
      if k < NUM_FILES { return -1; }
      if 0 <= i < NUM_FILES {
        ghost var table, bytes := inodes[..], memory[..];
        var n := inodes[i];
        inodes[i] := n.(isValid := true, filename := name, maxPos := n.sPos, fileSize := 0);
        numFiles := numFiles + 1;
        NewNode(table, bytes, i, name);
        assert inodes[..] == table[i := NewInode(table[i], name)] && memory[..] == bytes;
        return i;
      }
      r := -1;
    }

    lemma ViewIs()
      ensures View() == ViewOf(Now())
    {}

    lemma ValidIs()
      requires Valid()
      ensures View() == ViewOf(Now()) && Placed(Now().inodes, |Now().memory|)
      ensures inodes.Length == NUM_FILES && files.Length == MAX_OPEN_FILES
    {}

    lemma NowIs()
      ensures Now() == Disk(inodes[..], memory[..], files[..])
    {}

    /** `flat_read`; the offset is an `int`. */
    method FlatRead(i: nat, buf: array<Byte>, count: nat, offp: int) returns (size: nat)
      requires Valid() && i < NUM_FILES && inodes[i].sPos + offp >= 0
      requires count <= buf.Length && buf != memory
      modifies buf
      ensures Valid() && Now() == old(Now()) && size <= buf.Length
      ensures var data := ReadBytes(old(inodes[..])[i], old(memory[..]), count, offp);
              size == |data| && buf[..] == Filled(old(buf[..]), data)
    {
      hide Valid, Placed, ReadBytes, Now, Filled, Slice, ReadSize;
      InodeAt(i);
      ReadBytesAre(inodes[..][i], memory[..], count, offp);
      FilledByNothing(buf[..]);
      var n := inodes[i];
      if n.fileSize <= offp {
        return 0;
      }
      size := if count > n.fileSize - offp then n.fileSize - offp else count;
      CopyOut(n.sPos + offp, buf, size);
    }

    lemma InodeAt(i: nat)
      requires Valid() && i < NUM_FILES
      ensures i < inodes.Length
      ensures var n := inodes[i];
              && n.sPos <= n.maxPos <= n.ePos == n.sPos + FILE_SIZE <= memory.Length
              && n.fileSize == n.maxPos - n.sPos
    {
      PlacedAt(inodes[..], memory.Length, i);
    }

    method CopyOut(at: nat, buf: array<Byte>, size: nat)
      requires size <= buf.Length && buf != memory && at + size <= memory.Length
      modifies buf
      ensures Now() == old(Now()) && (old(Valid()) ==> Valid())
      ensures buf[..] == Filled(old(buf[..]), Slice(old(memory[..]), at, size))
    {
      var k := 0;
      while k < size
        invariant 0 <= k <= size
        invariant forall x :: 0 <= x < buf.Length ==> buf[x] == if x < k then memory[at + x] else old(buf[x])
      {
        buf[k] := memory[at + k];
        k := k + 1;
      }
    }

    /** `flat_write`; the offset is an `int`. */
    method FlatWrite(i: nat, buf: array<Byte>, count: nat, offp: int) returns (r: int)
      requires Valid() && i < NUM_FILES && inodes[i].sPos + offp >= 0
      requires count <= buf.Length && buf != memory
      modifies memory, inodes
      ensures Valid() && r == if offp + count > FILE_SIZE then -1 else count
      ensures Now() == Written(old(Now()), i, buf[..count], offp)
    {
      NowIs();
      PlacedAt(inodes[..], memory.Length, i);
      WrittenIs(Now(), i, buf[..count], offp);
      hide Placed, Now, Splat, Extended, Written;
      var n := inodes[i];
      if count > n.ePos - offp - n.sPos { return -1; }
      CopyIn(n.sPos + offp, buf, count);
      Grow(i, offp + count);
      r := count;
    }

    method CopyIn(at: nat, buf: array<Byte>, count: nat)
      requires count <= buf.Length && buf != memory && at + count <= memory.Length
      modifies memory
      ensures Now() == old(Now()).(memory := Splat(old(memory[..]), at, buf[..count]))
    {
      var k := 0;
      while k < count
        invariant 0 <= k <= count
        invariant forall x :: 0 <= x < memory.Length ==>
                    memory[x] == if at <= x < at + k then buf[x - at] else old(memory[x])
      {
        memory[at + k] := buf[k];
        k := k + 1;
      }
      assert memory[..] == Splat(old(memory[..]), at, buf[..count]);
      assert inodes[..] == old(inodes[..]) && files[..] == old(files[..]);
    }

    /** A file now reaches to offset `end`, if it did not. */
    method Grow(i: nat, end: int)
      requires Valid() && i < NUM_FILES && end <= FILE_SIZE
      modifies inodes
      ensures Valid() && Now() == old(Now()).(inodes := old(inodes[..])[i := Extended(old(inodes[i]), end)])
    {
      GrownPlaced(inodes[..], memory.Length, i, end);
      PlacedAt(inodes[..], memory.Length, i);
      hide Placed;
      ghost var table := inodes[..];
      var n := inodes[i];
      if n.sPos + end > n.maxPos {
        inodes[i] := inodes[i].(maxPos := n.sPos + end);
      }
      inodes[i] := inodes[i].(fileSize := inodes[i].maxPos - n.sPos);
      assert inodes[..] == table[i := Extended(n, end)];
      assert memory[..] == old(memory[..]) && files[..] == old(files[..]);
    }

    method MoveCursor(fd: nat, pos: nat)
      requires fd < files.Length && files[fd].Some?
      modifies files
      ensures Now() == old(Now()).(fds := old(Now()).fds[fd := Some(old(files[fd]).value.(pos := pos))])
      ensures old(Valid()) ==> Valid()
    {
      ghost var d := Now();
      files[fd] := Some(files[fd].value.(pos := pos));
      assert files[..] == d.fds[fd := files[fd]] && inodes[..] == d.inodes && memory[..] == d.memory;
    }

    /** `do_file_read` on a regular file, and `do_read_regular` */
    method DoRead(fd: nat, buf: array<Byte>, count: nat) returns (r: int)
      requires Valid() && Usable(Now(), fd)
      requires count <= buf.Length && buf != memory
      modifies files, buf
      ensures var (t, x, data) := RawRead(old(Now()), fd, count);
              Valid() && Now() == t && r == x && |data| <= buf.Length && buf[..] == Filled(old(buf[..]), data)
    {
      ghost var d := Now();
      UsableFacts(d, fd);
      RawReadIs(d, fd, count);
      NowIs();
      FilledByNothing(buf[..]);
      hide Placed, ToInt, Usable, ReadBytes, RawRead, Now, Filled;
      var f := files[fd].value;
      if !CanRead(f.mode) {
        return -EACCES;
      }
      var x := FlatRead(f.node, buf, count, ToInt(f.pos));
      NowIs();
      MoveCursor(fd, (f.pos + x) % WORD32);
      r := x;
    }

    /** `do_file_write` on a regular file, and `do_write_regular` */
    method DoWrite(fd: nat, buf: array<Byte>, count: nat) returns (r: int)
      requires Valid() && Usable(Now(), fd)
      requires count <= buf.Length && buf != memory
      modifies files, memory, inodes
      ensures Valid() && (Now(), r) == RawWrite(old(Now()), fd, old(buf[..count]))
    {
      hide *;
      ghost var d, data := Now(), buf[..count];
      UsableFacts(d, fd);
      RawWriteIs(d, fd, data);
      NowIs();
      ValidIs();
      var f := files[fd].value;
      if !CanWrite(f.mode) { return -EACCES; }
      r := FlatWrite(f.node, buf, count, ToInt(f.pos));
      NowIs();
      MoveCursor(fd, (f.pos + r) % WORD32);
    }

    /** `do_lseek_regular` */
    method DoLseek(fd: nat, offset: int, whence: int) returns (r: int)
      requires Valid() && IsOpen(View(), fd)
      modifies files
      ensures Valid() && (View(), r) == Seek(old(View()), fd, offset, whence)
    {
      ghost var d := Now();
      NowIs();
      ValidIs();
      SeekIs(d, fd, offset, whence);
      hide *;
      var f := files[fd].value;
      var size := inodes[f.node].fileSize;
      r := -EINVAL;
      if whence == SEEK_SET {
        var x := ToInt(offset);
        if x % WORD32 > size { return; }
        MoveCursor(fd, x);
        r := x;
      }
      if whence == SEEK_CUR {
        var x := ToInt(f.pos + offset);
        if x % WORD32 > size { return; }
        MoveCursor(fd, x);
        r := x;
      }
      if whence == SEEK_END {
        var x := ToInt(size + offset);
        if x % WORD32 > size { return; }
        MoveCursor(fd, x);
        r := x;
      }
      ViewIs();
    }

    /** `do_regular_file_open`, with a descriptor to spare */
    method DoOpen(name: string, flags: nat) returns (fd: int)
      requires Valid() && CanOpen(View())
      modifies this`numFiles, inodes, files
      ensures Valid() && (View(), fd) == Open(old(View()), name, flags)
    {
      ghost var s := View();
      hide Find, NodesOf, Placed;
      var i: int := LookupInode(name);
      if i == NUM_FILES {
        if !Creates(flags) { return -EINVAL; }
        i := CreateInode(name);
        // No inode: the descriptor refers to none.
        if i < 0 { i := NUM_FILES; }
      }
      fd := 3;
      while files[fd].Some?
        invariant 3 <= fd <= Free(s.fds, 3) && files[..] == s.fds
        invariant forall k :: 3 <= k < fd ==> files[k].Some?
        decreases Free(s.fds, 3) - fd
        modifies {}
      {
        fd := fd + 1;
      }
      files[fd] := Some(Cursor(i, 0, flags));
    }
  }
}
