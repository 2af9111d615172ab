/**
 Pipes: kernel/pipe.c over sleep and wakeup of kernel/proc.c, as a machine whose steps are single actions of one
 process. The ring positions are 32-bit and wrap; the history keeps all bytes accepted and delivered.
 */
module Pipe {

  const PIPESIZE := 512
  const WRAP := 0x1_0000_0000     // uint
  const NOBODY := -1

  type Byte = b: int | 0 <= b < 256

  datatype Chan = ReadChan | WriteChan     // &pi->nread, &pi->nwrite

  // Where a process is in pipewrite, piperead or pipeclose. A writer holds the data and the bytes done; `added` says
  // that it has added bytes since it last took the lock or woke the readers.
  datatype Pc =
    | Idle
    | WriteLock(data: seq<Byte>, i: nat) | Writing(data: seq<Byte>, i: nat, added: bool)
    | WakeReaders(data: seq<Byte>, i: nat, j: nat, sleepy: bool)
    | WriteReady(data: seq<Byte>, i: nat) | WriteHeld(data: seq<Byte>, i: nat) | WriteFree(data: seq<Byte>, i: nat)
    | WriteAsleep(data: seq<Byte>, i: nat)
    | ReadLock(n: nat) | ReadCheck(n: nat) | ReadReady(n: nat) | ReadHeld(n: nat) | ReadFree(n: nat)
    | ReadAsleep(n: nat)
    | Copying(i: nat, n: nat) | WakeWriters(i: nat, j: nat)
    | Closing(first: bool, j: nat)

  datatype State = State(
    data: seq<Byte>, nread: nat, nwrite: nat, readopen: bool, writeopen: bool,
    holder: int,               // of the pipe lock
    pcs: seq<Pc>,
    sleeping: seq<bool>,       // p->state == SLEEPING
    accepted: seq<Byte>,       // history
    delivered: seq<Byte>
  ) {
    predicate Has(p: int) { 0 <= p < |pcs| == |sleeping| }
  }

  predicate IsWrite(pc: Pc) {
    pc.WriteLock? || pc.Writing? || pc.WakeReaders? || pc.WriteReady? || pc.WriteHeld? || pc.WriteFree? ||
      pc.WriteAsleep?
  }

  predicate IsRead(pc: Pc) {
    pc.ReadLock? || pc.ReadCheck? || pc.ReadReady? || pc.ReadHeld? || pc.ReadFree? || pc.ReadAsleep? || pc.Copying? ||
      pc.WakeWriters?
  }

  predicate HoldsPipe(pc: Pc) {
    || pc.Writing? || pc.WakeReaders? || pc.WriteReady? || pc.WriteHeld?
    || pc.ReadCheck? || pc.ReadReady? || pc.ReadHeld? || pc.Copying? || pc.WakeWriters? || pc.Closing?
  }

  // sleep() holds p->lock from before it releases the pipe lock until the process sleeps.
  predicate HoldsOwn(pc: Pc) { pc.WriteHeld? || pc.WriteFree? || pc.ReadHeld? || pc.ReadFree? }

  predicate Empty(s: State) { s.nread == s.nwrite }

  predicate Full(s: State) { s.nwrite == (s.nread + PIPESIZE) % WRAP }

  // ---- Steps ----

  datatype Step =
    | StartWrite(p: nat, data: seq<Byte>) | StartRead(p: nat, n: nat) | Lock(p: nat)
    | PutByte(p: nat) | WriteFault(p: nat) | Broken(p: nat) | Stall(p: nat) | WriteDone(p: nat)
    | CheckEmpty(p: nat) | GetByte(p: nat) | ReadFault(p: nat) | ReadDone(p: nat)
    | TakeOwn(p: nat) | Release(p: nat) | Sleep(p: nat) | WakeOne(p: nat) | WakeEnd(p: nat)
    | Kill(p: nat) | Close(p: nat, write: bool)

  predicate Runs(s: State, p: nat) { s.Has(p) && !s.sleeping[p] }

  // The channel that a wakeup loop wakes.
  function WakeChan(pc: Pc): Chan
    requires pc.WakeReaders? || pc.WakeWriters? || pc.Closing?
  {
    if pc.WakeReaders? || (pc.Closing? && pc.first) then ReadChan else WriteChan
  }

  predicate IsWake(pc: Pc) { pc.WakeReaders? || pc.WakeWriters? || pc.Closing? }

  predicate SleepsOn(pc: Pc, c: Chan) { if c == ReadChan then pc.ReadAsleep? else pc.WriteAsleep? }

  predicate Enabled(s: State, a: Step) {
    && |s.data| == PIPESIZE
    && match a
       case StartWrite(p, data) => Runs(s, p) && s.pcs[p] == Idle && s.writeopen
       case StartRead(p, n) => Runs(s, p) && s.pcs[p] == Idle && s.readopen
       case Lock(p) =>
         && Runs(s, p) && s.holder == NOBODY
         && (s.pcs[p].WriteLock? || s.pcs[p].ReadLock? || s.pcs[p].WriteAsleep? || s.pcs[p].ReadAsleep?)
       case PutByte(p) => Runs(s, p) && s.pcs[p].Writing? && s.pcs[p].i < |s.pcs[p].data| && s.readopen && !Full(s)
       case WriteFault(p) => Runs(s, p) && s.pcs[p].Writing? && s.pcs[p].i < |s.pcs[p].data| && s.readopen && !Full(s)
       case Broken(p) => Runs(s, p) && s.pcs[p].Writing? && s.pcs[p].i < |s.pcs[p].data| && !s.readopen
       case Stall(p) => Runs(s, p) && s.pcs[p].Writing? && s.pcs[p].i < |s.pcs[p].data| && s.readopen && Full(s)
       case WriteDone(p) => Runs(s, p) && s.pcs[p].Writing? && s.pcs[p].i >= |s.pcs[p].data|
       case CheckEmpty(p) => Runs(s, p) && s.pcs[p].ReadCheck?
       case GetByte(p) => Runs(s, p) && s.pcs[p].Copying? && s.pcs[p].i < s.pcs[p].n && !Empty(s)
       case ReadFault(p) => Runs(s, p) && s.pcs[p].Copying? && s.pcs[p].i < s.pcs[p].n && !Empty(s)
       case ReadDone(p) => Runs(s, p) && s.pcs[p].Copying? && (s.pcs[p].i >= s.pcs[p].n || Empty(s))
       case TakeOwn(p) => Runs(s, p) && (s.pcs[p].WriteReady? || s.pcs[p].ReadReady?)
       case Release(p) => Runs(s, p) && (s.pcs[p].WriteHeld? || s.pcs[p].ReadHeld?)
       case Sleep(p) => Runs(s, p) && (s.pcs[p].WriteFree? || s.pcs[p].ReadFree?)
       // wakeup() needs the lock of each process but its own.
       case WakeOne(p) =>
         Runs(s, p) && IsWake(s.pcs[p]) && s.Has(s.pcs[p].j) && (s.pcs[p].j != p ==> !HoldsOwn(s.pcs[s.pcs[p].j]))
       case WakeEnd(p) => Runs(s, p) && IsWake(s.pcs[p]) && s.pcs[p].j >= |s.pcs|
       case Kill(p) => s.Has(p) && !HoldsOwn(s.pcs[p])
       // The last file reference to an end goes away, so nobody is using that end.
       case Close(p, write) => Runs(s, p) && s.pcs[p] == Idle && s.holder == NOBODY && CanClose(s, write)
  }

  predicate CanClose(s: State, write: bool) {
    if write then s.writeopen && forall q :: 0 <= q < |s.pcs| ==> !IsWrite(s.pcs[q])
    else s.readopen && forall q :: 0 <= q < |s.pcs| ==> !IsRead(s.pcs[q])
  }

  function Apply(s: State, a: Step): State
    requires Enabled(s, a)
  {
    match a
    case StartWrite(p, data) => s.(pcs := s.pcs[p := WriteLock(data, 0)])
    case StartRead(p, n) => s.(pcs := s.pcs[p := ReadLock(n)])
    case Lock(p) => s.(pcs := s.pcs[p := Locked(s.pcs[p])], holder := p)
    case PutByte(p) =>
      var pc := s.pcs[p];
      s.(data := s.data[s.nwrite % PIPESIZE := pc.data[pc.i]], nwrite := (s.nwrite + 1) % WRAP,
         accepted := s.accepted + [pc.data[pc.i]], pcs := s.pcs[p := Writing(pc.data, pc.i + 1, true)])
    case WriteFault(p) =>
      var pc := s.pcs[p];
      if pc.i == 0 then s.(pcs := s.pcs[p := Idle], holder := NOBODY)
      else s.(pcs := s.pcs[p := WakeReaders(pc.data, pc.i, 0, false)])
    case Broken(p) => s.(pcs := s.pcs[p := Idle], holder := NOBODY)
    case Stall(p) => s.(pcs := s.pcs[p := WakeReaders(s.pcs[p].data, s.pcs[p].i, 0, true)])
    case WriteDone(p) => s.(pcs := s.pcs[p := WakeReaders(s.pcs[p].data, s.pcs[p].i, 0, false)])
    case CheckEmpty(p) => s.(pcs := s.pcs[p := if Empty(s) && s.writeopen then ReadReady(s.pcs[p].n)
                                          else Copying(0, s.pcs[p].n)])
    case GetByte(p) =>
      s.(nread := (s.nread + 1) % WRAP, delivered := s.delivered + [s.data[s.nread % PIPESIZE]],
         pcs := s.pcs[p := Copying(s.pcs[p].i + 1, s.pcs[p].n)])
    case ReadFault(p) =>
      if s.pcs[p].i == 0 then s.(pcs := s.pcs[p := Idle], holder := NOBODY)
      else s.(pcs := s.pcs[p := WakeWriters(s.pcs[p].i, 0)])
    case ReadDone(p) => s.(pcs := s.pcs[p := WakeWriters(s.pcs[p].i, 0)])
    case TakeOwn(p) => s.(pcs := s.pcs[p := if s.pcs[p].WriteReady? then WriteHeld(s.pcs[p].data, s.pcs[p].i)
                                       else ReadHeld(s.pcs[p].n)])
    case Release(p) => s.(pcs := s.pcs[p := if s.pcs[p].WriteHeld? then WriteFree(s.pcs[p].data, s.pcs[p].i)
                                       else ReadFree(s.pcs[p].n)], holder := NOBODY)
    case Sleep(p) =>
      s.(pcs := s.pcs[p := if s.pcs[p].WriteFree? then WriteAsleep(s.pcs[p].data, s.pcs[p].i)
                      else ReadAsleep(s.pcs[p].n)], sleeping := s.sleeping[p := true])
    case WakeOne(p) => ApplyWake(s, p)
    case WakeEnd(p) => ApplyWakeEnd(s, p)
    case Kill(p) => s.(sleeping := s.sleeping[p := false])
    case Close(p, write) =>
      s.(readopen := s.readopen && write, writeopen := s.writeopen && !write,
         pcs := s.pcs[p := Closing(true, 0)], holder := p)
  }

  // Taking the pipe lock: at the start, or after having slept.
  function Locked(pc: Pc): Pc {
    match pc
    case WriteLock(data, i) => Writing(data, i, false)
    case WriteAsleep(data, i) => Writing(data, i, false)
    case ReadLock(n) => ReadCheck(n)
    case ReadAsleep(n) => ReadCheck(n)
    case _ => pc
  }

  function ApplyWake(s: State, p: nat): State
    requires Enabled(s, WakeOne(p))
  {
    var pc := s.pcs[p];
    var next := match pc
      case WakeReaders(data, i, j, sleepy) => WakeReaders(data, i, j + 1, sleepy)
      case WakeWriters(i, j) => WakeWriters(i, j + 1)
      case Closing(first, j) => Closing(first, j + 1)
      case _ => pc;
    var wakes := pc.j != p && SleepsOn(s.pcs[pc.j], WakeChan(pc));
    s.(sleeping := if wakes then s.sleeping[pc.j := false] else s.sleeping, pcs := s.pcs[p := next])
  }

  function ApplyWakeEnd(s: State, p: nat): State
    requires Enabled(s, WakeEnd(p))
  {
    match s.pcs[p]
    case WakeReaders(data, i, _, true) => s.(pcs := s.pcs[p := WriteReady(data, i)])
    case Closing(true, _) => s.(pcs := s.pcs[p := Closing(false, 0)])
    case _ => s.(pcs := s.pcs[p := Idle], holder := NOBODY)
  }
}
