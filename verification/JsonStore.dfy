/** `src/state/json_store.rs`: every mutation rewrites the file through a temporary one.
    Each file operation may fail or be cut off by a crash, part way through. */
module StoreModel {
  import opened Wrappers
  import opened Wire
  import opened Records

  // -- the port, and the simple map behind it ------------------------------------------------

  datatype Op =
    | Put(state: DomainState)
    | Remove(host: string)
    | Update(host: string, change: DomainState -> DomainState)

  function FreshState(host: string): DomainState {
    DomainState(host, "")
  }

  function Updated(m: Hosts, host: string, change: DomainState -> DomainState): DomainState {
    change(if host in m then m[host] else FreshState(host))
  }

  /** What an operation means, whichever adapter carries it out. */
  function MemAfter(m: Hosts, op: Op): Hosts {
    match op
    case Put(state) => m[state.host := state]
    case Remove(host) => m - {host}
    case Update(host, change) =>
      var next := Updated(m, host, change);
      m[next.host := next]
  }

  lemma MemAfterKeysAreHosts(m: Hosts, op: Op)
    requires KeysAreHosts(m)
    ensures KeysAreHosts(MemAfter(m, op))
  {
  }

  // -- what the operations come to, host by host ---------------------------------------------

  function At(m: Hosts, host: string): Option<DomainState> {
    if host in m then Some(m[host]) else None
  }

  /** The record a closure is given: the one stored, or a fresh one of that host. */
  ghost predicate Given(m: Hosts, host: string, seen: DomainState) {
    At(m, host) == Some(seen) || (At(m, host) == None && seen == DomainState(host, ""))
  }

  /** One update, wherever the closure moves the record: what it makes of the record given to
      it is found under that one's own host, and every other host is as it was. */
  lemma UpdateSees(m: Hosts, host: string, change: DomainState -> DomainState, seen: DomainState, h: string)
    requires Given(m, host, seen)
    ensures At(MemAfter(m, Update(host, change)), h) == if h == change(seen).host then Some(change(seen)) else At(m, h)
  {
  }

  /** What was put is what the next update is given. */
  lemma UpdateAfterPut(m: Hosts, r: DomainState, change: DomainState -> DomainState, h: string)
    ensures At(MemAfter(MemAfter(m, Put(r)), Update(r.host, change)), h)
         == if h == change(r).host then Some(change(r)) else if h == r.host then Some(r) else At(m, h)
  {
  }

  /** After a removal the next update is given a fresh record. */
  lemma UpdateAfterRemove(m: Hosts, host: string, change: DomainState -> DomainState, h: string)
    ensures var made := change(DomainState(host, ""));
            At(MemAfter(MemAfter(m, Remove(host)), Update(host, change)), h) ==
            if h == made.host then Some(made) else if h == host then None else At(m, h)
  {
  }

  /** A closure that leaves the record of `host` under that host, as counting an outcome does. */
  ghost predicate KeepsHost(change: DomainState -> DomainState, host: string) {
    forall d: DomainState :: d.host == host ==> change(d).host == host
  }

  ghost predicate KeepsItsHost(op: Op) {
    op.Update? ==> KeepsHost(op.change, op.host)
  }

  /** The record of one host under a run of operations: those on other hosts are nothing to it. */
  function RecordAfter(r: Option<DomainState>, host: string, ops: seq<Op>): Option<DomainState> {
    if ops == [] then r
    else
      var before := RecordAfter(r, host, ops[..|ops| - 1]);
      match ops[|ops| - 1]
      case Put(state) => if state.host == host then Some(state) else before
      case Remove(other) => if other == host then None else before
      case Update(other, change) =>
        if other != host then before
        else if before.Some? then Some(change(before.value))
        else Some(change(DomainState(host, "")))
  }

  function MemAfterAll(m: Hosts, ops: seq<Op>): Hosts {
    if ops == [] then m else MemAfter(MemAfterAll(m, ops[..|ops| - 1]), ops[|ops| - 1])
  }

  lemma {:induction false} RecordsKeepTheirHost(m: Hosts, ops: seq<Op>)
    requires KeysAreHosts(m)
    ensures KeysAreHosts(MemAfterAll(m, ops))
  {
    if ops != [] {
      RecordsKeepTheirHost(m, ops[..|ops| - 1]);
      MemAfterKeysAreHosts(MemAfterAll(m, ops[..|ops| - 1]), ops[|ops| - 1]);
    }
  }

  /** Over every run no update is lost: the record of each host is what the operations on that
      host make of it one after another, whatever is done to other hosts in between. */
  lemma {:induction false} RecordsAreIndependent(m: Hosts, ops: seq<Op>, host: string)
    requires KeysAreHosts(m) && forall op <- ops :: KeepsItsHost(op)
    ensures At(MemAfterAll(m, ops), host) == RecordAfter(At(m, host), host, ops)
  {
    if ops != [] {
      var earlier, last := ops[..|ops| - 1], ops[|ops| - 1];
      RecordsAreIndependent(m, earlier, host);
      RecordsKeepTheirHost(m, earlier);
      assert KeepsItsHost(last);
    }
  }

  /** Removing an absent key rewrites nothing. */
  predicate Skips(m: Hosts, op: Op) {
    op.Remove? && op.host !in m
  }

  // -- the disk --------------------------------------------------------------------------------

  /** `synced`: the content has reached the device. */
  datatype File = File(bytes: seq<byte>, synced: bool)

  /** `replaced` holds what the target's directory entry was before each rename; the entry
      itself is never flushed, so losing power may bring any of them back. */
  datatype Disk = Disk(target: Option<File>, temp: Option<File>, replaced: seq<Option<File>>)

  /** How one file operation goes. `effect` is how much of it happened all the same:
      bytes written, or whether the whole of it took effect. */
  datatype Fault = Fine | Fail(effect: nat) | Crash(effect: nat)

  datatype Script = Script(create: Fault, write: Fault, sync: Fault, rename: Fault, cleanup: Fault)

  datatype Ending = Done | Failed | Crashed

  predicate Took(f: Fault) {
    f.Fine? || f.effect > 0
  }

  function CreateOn(d: Disk, f: Fault): Disk {
    if Took(f) then d.(temp := Some(File([], false))) else d
  }

  function WriteOn(d: Disk, bytes: seq<byte>, f: Fault): Disk {
    var n := if f.Fine? || f.effect > |bytes| then |bytes| else f.effect;
    if d.temp.Some? then d.(temp := Some(File(d.temp.value.bytes + bytes[..n], false))) else d
  }

  function SyncOn(d: Disk, f: Fault): Disk {
    if Took(f) && d.temp.Some? then d.(temp := Some(d.temp.value.(synced := true))) else d
  }

  function RenameOn(d: Disk, f: Fault): Disk {
    if Took(f) && d.temp.Some? then Disk(d.temp, None, d.replaced + [d.target]) else d
  }

  function RemoveOn(d: Disk, f: Fault): Disk {
    if Took(f) then d.(temp := None) else d
  }

  /** After a step went wrong: a crash ends everything, a failure is tidied up after. */
  function GiveUp(d: Disk, f: Fault, s: Script): (Disk, Ending) {
    if f.Crash? then (d, Crashed)
    else (RemoveOn(d, s.cleanup), if s.cleanup.Crash? then Crashed else Failed)
  }

  function FlushOn(d: Disk, bytes: seq<byte>, s: Script): (Disk, Ending) {
    var created := CreateOn(d, s.create);
    if !s.create.Fine? then GiveUp(created, s.create, s)
    else
      var written := WriteOn(created, bytes, s.write);
      if !s.write.Fine? then GiveUp(written, s.write, s)
      else
        var synced := SyncOn(written, s.sync);
        if !s.sync.Fine? then GiveUp(synced, s.sync, s)
        else
          var renamed := RenameOn(synced, s.rename);
          if !s.rename.Fine? then GiveUp(renamed, s.rename, s) else (renamed, Done)
  }

  /** All or nothing at every micro-step: the target is untouched, or it is the whole new
      content, on the device. Nothing temporary is left unless a crash or the tidying left it. */
  lemma FlushIsAtomic(d: Disk, bytes: seq<byte>, s: Script)
    ensures var (e, ending) := FlushOn(d, bytes, s);
            && ((e.target == d.target && e.replaced == d.replaced && ending != Done) ||
                (e.target == Some(File(bytes, true)) && e.replaced == d.replaced + [d.target] && e.temp.None?))
            && (ending == Done || (ending == Failed && Took(s.cleanup)) ==> e.temp.None?)
  {
    assert [] + bytes[..|bytes|] == bytes;
  }

  /** How a flush ends: it succeeds exactly when none of its four steps went wrong, and anything
      short of a crash, of a step or of the tidying up, is reported. */
  lemma FlushEndsAs(d: Disk, bytes: seq<byte>, s: Script)
    ensures var ending := FlushOn(d, bytes, s).1;
            && (ending == Done <==> s.create.Fine? && s.write.Fine? && s.sync.Fine? && s.rename.Fine?)
            && (ending == Crashed <==>
                  || s.create.Crash?
                  || (s.create.Fine? && s.write.Crash?)
                  || (s.create.Fine? && s.write.Fine? && s.sync.Crash?)
                  || (s.create.Fine? && s.write.Fine? && s.sync.Fine? && s.rename.Crash?)
                  || (ending != Done && s.cleanup.Crash?))
  {
  }

  function Content(entry: Option<File>): Option<seq<byte>> {
    match entry case None => None case Some(file) => Some(file.bytes)
  }

  /** Losing power: some directory entry since the store was opened, and anything at all
      in a file that had not been synced. */
  function AfterPowerLoss(d: Disk, pick: nat, garbage: seq<byte>): Option<seq<byte>> {
    var entry := if pick < |d.replaced| then d.replaced[pick] else d.target;
    match entry
    case None => None
    case Some(file) => Some(if file.synced then file.bytes else garbage)
  }

  // -- the store -------------------------------------------------------------------------------

  /** `history` lists the maps the target has held, oldest first. */
  datatype State = State(mem: Hosts, disk: Disk, history: seq<Hosts>)

  datatype Act = Act(op: Op, script: Script, ending: Ending)

  ghost predicate Flushed(codec: Codec, d: Disk, m: Hosts, script: Script, e: Disk, ending: Ending) {
    exists bytes :: Pictures(codec, bytes, m) && (e, ending) == FlushOn(d, bytes, script)
  }

  function Remembered(s: State, mem: Hosts, disk: Disk): State {
    State(mem, disk, if |disk.replaced| > |s.disk.replaced| then s.history + [mem] else s.history)
  }

  ghost predicate Step(codec: Codec, s: State, act: Act, t: State) {
    if Skips(s.mem, act.op) then t == s && act.ending == Done
    else
      && Flushed(codec, s.disk, MemAfter(s.mem, act.op), act.script, t.disk, act.ending)
      && t == Remembered(s, MemAfter(s.mem, act.op), t.disk)
  }

  ghost predicate Holds(codec: Codec, entry: Option<File>, m: Hosts) {
    (entry.Some? ==> entry.value.synced) && Load(codec, Content(entry)) == Ok(m)
  }

  ghost predicate Inv(codec: Codec, s: State) {
    && KeysAreHosts(s.mem)
    && |s.history| == |s.disk.replaced| + 1
    && Holds(codec, s.disk.target, s.history[|s.history| - 1])
    && forall i :: 0 <= i < |s.disk.replaced| ==> Holds(codec, s.disk.replaced[i], s.history[i])
  }

  ghost predicate InSync(codec: Codec, s: State) {
    Load(codec, Content(s.disk.target)) == Ok(s.mem)
  }

  /** Whatever goes wrong: memory does what the operation means, and the file either
      stays as it was or holds the new memory. Success of a flush means the latter. */
  lemma StepOldOrNew(codec: Codec, s: State, act: Act, t: State)
    requires Faithful(codec) && Inv(codec, s) && Step(codec, s, act, t)
    ensures t.mem == MemAfter(s.mem, act.op)
    ensures || (t.disk.target == s.disk.target && t.disk.replaced == s.disk.replaced && t.history == s.history)
            || (t.disk.replaced == s.disk.replaced + [s.disk.target] && t.history == s.history + [t.mem]
                && Holds(codec, t.disk.target, t.mem))
    ensures act.ending == Done && !Skips(s.mem, act.op) ==> t.history == s.history + [t.mem]
  {
    if Skips(s.mem, act.op) {
      assert s.mem - {act.op.host} == s.mem;
    } else {
      var bytes :| Pictures(codec, bytes, t.mem) && (t.disk, act.ending) == FlushOn(s.disk, bytes, act.script);
      FlushIsAtomic(s.disk, bytes, act.script);
      MemAfterKeysAreHosts(s.mem, act.op);
      LoadUndoesFlush(codec, bytes, t.mem);
    }
  }

  lemma StepKeepsInv(codec: Codec, s: State, act: Act, t: State)
    requires Faithful(codec) && Inv(codec, s) && Step(codec, s, act, t)
    ensures Inv(codec, t)
  {
    StepOldOrNew(codec, s, act, t);
    MemAfterKeysAreHosts(s.mem, act.op);
  }

  lemma OpenedInv(codec: Codec, m: Hosts, d: Disk)
    requires Load(codec, Content(d.target)) == Ok(m) && d.replaced == [] && (d.target.Some? ==> d.target.value.synced)
    ensures Inv(codec, State(m, d, [m])) && InSync(codec, State(m, d, [m]))
  {
    LoadKeysAreHosts(codec, Content(d.target));
  }

  /** Success of `put` and `update` means that disk equals memory. */
  lemma WriteOkInSync(codec: Codec, s: State, act: Act, t: State)
    requires Faithful(codec) && Inv(codec, s) && Step(codec, s, act, t)
    requires !act.op.Remove? && act.ending == Done
    ensures InSync(codec, t)
  {
    StepOldOrNew(codec, s, act, t);
    StepKeepsInv(codec, s, act, t);
  }

  /** Success of `remove` means it exactly when the key was there or they agreed before. */
  lemma RemoveOkInSyncIff(codec: Codec, s: State, act: Act, t: State)
    requires Faithful(codec) && Inv(codec, s) && Step(codec, s, act, t)
    requires act.op.Remove? && act.ending == Done
    ensures InSync(codec, t) <==> act.op.host in s.mem || InSync(codec, s)
  {
    StepOldOrNew(codec, s, act, t);
    StepKeepsInv(codec, s, act, t);
  }

  /** Such a case: a failed `put`, then a `remove` of another host that reports success. */
  lemma RemoveOkOutOfSync(codec: Codec, record: DomainState, absent: string, s: State)
    requires Faithful(codec) && record.host != absent
    requires s == State(map[record.host := record], Disk(None, None, []), [map[]])
    ensures Inv(codec, s)
    ensures var put := Act(Put(record), Script(Fail(0), Fine, Fine, Fine, Fine), Failed);
            Step(codec, State(map[], Disk(None, None, []), [map[]]), put, s)
    ensures var remove := Act(Remove(absent), Script(Fine, Fine, Fine, Fine, Fine), Done);
            Step(codec, s, remove, s) && !InSync(codec, s)
  {
    var records := [record];
    assert Enumerates(records, s.mem);
    assert Pictures(codec, codec.encode(SortByHost(records)), s.mem);
    assert record.host in s.mem;
  }

  // -- runs ---------------------------------------------------------------------------------------

  ghost predicate StepAt(codec: Codec, states: seq<State>, acts: seq<Act>, i: nat) {
    i < |acts| && i + 1 < |states| && Step(codec, states[i], acts[i], states[i + 1])
  }

  /** A run: any operations with any faults; only the last one may be cut off by a crash. */
  ghost predicate Runs(codec: Codec, states: seq<State>, acts: seq<Act>) {
    && |states| == |acts| + 1
    && (forall i: nat :: i < |acts| ==> StepAt(codec, states, acts, i))
    && forall i :: 0 <= i < |acts| - 1 ==> acts[i].ending != Crashed
  }

  function Ops(acts: seq<Act>): (ops: seq<Op>)
    ensures |ops| == |acts|
  {
    seq(|acts|, i requires 0 <= i < |acts| => acts[i].op)
  }

  lemma StepMem(codec: Codec, s: State, act: Act, t: State)
    requires Step(codec, s, act, t)
    ensures t.mem == MemAfter(s.mem, act.op)
  {
    assert Skips(s.mem, act.op) ==> s.mem - {act.op.host} == s.mem;
  }

  /** Whatever the disk does, the store answers as the in-memory store would. */
  lemma {:induction false} AgreesWithInMemory(codec: Codec, states: seq<State>, acts: seq<Act>, n: nat)
    requires Runs(codec, states, acts) && n <= |acts|
    ensures states[n].mem == MemAfterAll(states[0].mem, Ops(acts[..n]))
  {
    if n > 0 {
      AgreesWithInMemory(codec, states, acts, n - 1);
      assert Ops(acts[..n])[..n - 1] == Ops(acts[..n - 1]);
      assert StepAt(codec, states, acts, n - 1);
      StepMem(codec, states[n - 1], acts[n - 1], states[n]);
    }
  }

  /** Whatever the disk does, no update is lost: a host's record is what the operations on it
      make of the record it had. */
  lemma NoUpdateIsLost(codec: Codec, states: seq<State>, acts: seq<Act>, host: string)
    requires Runs(codec, states, acts) && KeysAreHosts(states[0].mem)
    requires forall op <- Ops(acts) :: KeepsItsHost(op)
    ensures At(states[|acts|].mem, host) == RecordAfter(At(states[0].mem, host), host, Ops(acts))
  {
    AgreesWithInMemory(codec, states, acts, |acts|);
    assert acts[..|acts|] == acts;
    RecordsAreIndependent(states[0].mem, Ops(acts), host);
  }

  /** Opened on a file it could load. */
  ghost predicate Opened(codec: Codec, s: State) {
    Inv(codec, s) && s.history == [s.mem]
  }

  /** Since state `k` every flush has failed. */
  ghost predicate NoFlushSince(states: seq<State>, acts: seq<Act>, k: nat, n: nat)
    requires n <= |acts| && |states| == |acts| + 1
  {
    forall j :: k <= j < n ==> acts[j].ending != Done || Skips(states[j].mem, acts[j].op)
  }

  /** The map the target holds now. */
  ghost function LastHeld(s: State): Hosts
    requires s.history != []
  {
    s.history[|s.history| - 1]
  }

  lemma FlushedOrNot(codec: Codec, s: State, act: Act, t: State)
    requires Faithful(codec) && Inv(codec, s) && Step(codec, s, act, t)
    ensures Inv(codec, t)
    ensures LastHeld(t) == t.mem || (LastHeld(t) == LastHeld(s) && (act.ending != Done || Skips(s.mem, act.op)))
  {
    StepOldOrNew(codec, s, act, t);
    StepKeepsInv(codec, s, act, t);
  }

  lemma {:induction false} LastFlush(codec: Codec, states: seq<State>, acts: seq<Act>, n: nat) returns (k: nat)
    requires Faithful(codec) && Runs(codec, states, acts) && Opened(codec, states[0]) && n <= |acts|
    ensures Inv(codec, states[n]) && k <= n
    ensures LastHeld(states[n]) == states[k].mem && NoFlushSince(states, acts, k, n)
  {
    if n == 0 {
      return 0;
    }
    k := LastFlush(codec, states, acts, n - 1);
    assert StepAt(codec, states, acts, n - 1);
    FlushedOrNot(codec, states[n - 1], acts[n - 1], states[n]);
    if LastHeld(states[n]) == states[n].mem {
      k := n;
    }
  }

  /** Killed at any micro-step of any run, the store reopens with a complete map that was in
      memory at some state, after which no flush was reported to have succeeded: it is that
      of the last successful flush, or of a later one that was cut off or reported failed. */
  lemma ReopenAfterKill(codec: Codec, states: seq<State>, acts: seq<Act>) returns (k: nat)
    requires Faithful(codec) && Runs(codec, states, acts) && Opened(codec, states[0])
    ensures k < |states| && NoFlushSince(states, acts, k, |acts|)
    ensures Load(codec, Content(states[|acts|].disk.target)) == Ok(states[k].mem)
  {
    k := LastFlush(codec, states, acts, |acts|);
  }

  ghost predicate WasInMemory(states: seq<State>, n: nat, m: Hosts) {
    exists k: nat :: k <= n && k < |states| && states[k].mem == m
  }

  lemma HistoryGrows(codec: Codec, s: State, act: Act, t: State)
    requires Faithful(codec) && Inv(codec, s) && Step(codec, s, act, t)
    ensures t.history == s.history || t.history == s.history + [t.mem]
  {
    StepOldOrNew(codec, s, act, t);
  }

  lemma StillWasInMemory(states: seq<State>, n: nat, m: Hosts)
    requires WasInMemory(states, n, m)
    ensures WasInMemory(states, n + 1, m)
  {
    var k: nat :| k <= n && k < |states| && states[k].mem == m;
    assert k <= n + 1;
  }

  lemma {:induction false} HistoryWasInMemory(codec: Codec, states: seq<State>, acts: seq<Act>, n: nat, i: nat)
    requires Faithful(codec) && Runs(codec, states, acts) && Opened(codec, states[0]) && n <= |acts|
    requires i < |states[n].history|
    ensures WasInMemory(states, n, states[n].history[i])
  {
    if n > 0 {
      var _ := LastFlush(codec, states, acts, n - 1);
      assert StepAt(codec, states, acts, n - 1);
      HistoryGrows(codec, states[n - 1], acts[n - 1], states[n]);
      if i < |states[n - 1].history| {
        HistoryWasInMemory(codec, states, acts, n - 1, i);
        StillWasInMemory(states, n - 1, states[n].history[i]);
      }
    }
  }

  /** Losing power may lose the latest flushes, since the directory is not synced, but it
      still leaves a complete map that was in memory: no file is renamed before its
      content is on the device. */
  lemma ReopenAfterPowerLoss(codec: Codec, states: seq<State>, acts: seq<Act>, pick: nat, garbage: seq<byte>)
    requires Faithful(codec) && Runs(codec, states, acts) && Opened(codec, states[0])
    ensures var found := Load(codec, AfterPowerLoss(states[|acts|].disk, pick, garbage));
            found.Ok? && WasInMemory(states, |acts|, found.value)
  {
    var last := states[|acts|];
    var _ := LastFlush(codec, states, acts, |acts|);
    HistoryWasInMemory(codec, states, acts, |acts|, if pick < |last.disk.replaced| then pick else |last.history| - 1);
  }
}

module JsonStore {
  import opened Wrappers
  import opened Wire
  import opened Records
  import opened Model = StoreModel

  /** The directory the store lives in. Every call reports how it went. */
  class FileSystem {
    var target: Option<File>
    var temp: Option<File>
    var replaced: seq<Option<File>>

    ghost function View(): Disk
      reads this
    {
      Disk(target, temp, replaced)
    }

    method Create(f: Fault)
      modifies this
      ensures View() == CreateOn(old(View()), f)
    {
      if Took(f) {
        temp := Some(File([], false));
      }
    }

    method WriteAll(bytes: seq<byte>, f: Fault)
      modifies this
      ensures View() == WriteOn(old(View()), bytes, f)
    {
      var n := if f.Fine? || f.effect > |bytes| then |bytes| else f.effect;
      if temp.Some? {
        temp := Some(File(temp.value.bytes + bytes[..n], false));
      }
    }

    method SyncAll(f: Fault)
      modifies this
      ensures View() == SyncOn(old(View()), f)
    {
      if Took(f) && temp.Some? {
        temp := Some(temp.value.(synced := true));
      }
    }

    method Rename(f: Fault)
      modifies this
      ensures View() == RenameOn(old(View()), f)
    {
      if Took(f) && temp.Some? {
        target, temp, replaced := temp, None, replaced + [target];
      }
    }

    method RemoveTemp(f: Fault)
      modifies this
      ensures View() == RemoveOn(old(View()), f)
    {
      if Took(f) {
        temp := None;
      }
    }
  }

  class JsonStateStore {
    const codec: Codec
    const files: FileSystem
    var mem: Hosts
    ghost var history: seq<Hosts>

    ghost function View(): State
      reads this, files
    {
      State(mem, files.View(), history)
    }

    constructor (codec: Codec, files: FileSystem, mem: Hosts)
      ensures this.codec == codec && this.files == files && View() == State(mem, files.View(), [mem])
    {
      this.codec, this.files, this.mem, history := codec, files, mem, [mem];
    }

    /** A missing or blank file opens empty; one that does not parse is an error. */
    static method Open(codec: Codec, files: FileSystem, readable: bool) returns (r: Result<JsonStateStore, StoreError>)
      requires files.replaced == [] && (files.target.Some? ==> files.target.value.synced)
      ensures files.target.Some? && !readable ==> r == Err(Unreadable)
      ensures files.target.None? || readable ==>
                (match r
                 case Ok(store) =>
                   && fresh(store) && store.codec == codec && store.files == files
                   && Load(codec, Content(files.target)) == Ok(store.mem)
                   && Inv(codec, store.View()) && Opened(codec, store.View())
                 case Err(e) => Load(codec, Content(files.target)) == Err(e))
    {
      if files.target.Some? && !readable {
        return Err(Unreadable);
      }
      match Load(codec, Content(files.target)) {
        case Err(e) => return Err(e);
        case Ok(mem) =>
          OpenedInv(codec, mem, files.View());
          var store := new JsonStateStore(codec, files, mem);
          return Ok(store);
      }
    }

    method TidyUp(f: Fault, script: Script) returns (ending: Ending)
      requires !f.Fine?
      modifies files
      ensures (files.View(), ending) == GiveUp(old(files.View()), f, script)
    {
      if f.Crash? {
        return Crashed;
      }
      files.RemoveTemp(script.cleanup);
      ending := if script.cleanup.Crash? then Crashed else Failed;
    }

    method WriteThenRename(bytes: seq<byte>, script: Script) returns (ending: Ending)
      modifies files
      ensures (files.View(), ending) == FlushOn(old(files.View()), bytes, script)
    {
      files.Create(script.create);
      if !script.create.Fine? {
        ending := TidyUp(script.create, script);
        return;
      }
      files.WriteAll(bytes, script.write);
      if !script.write.Fine? {
        ending := TidyUp(script.write, script);
        return;
      }
      files.SyncAll(script.sync);
      if !script.sync.Fine? {
        ending := TidyUp(script.sync, script);
        return;
      }
      files.Rename(script.rename);
      if !script.rename.Fine? {
        ending := TidyUp(script.rename, script);
        return;
      }
      ending := Done;
    }

    method Flush(script: Script) returns (ending: Ending)
      requires KeysAreHosts(mem)
      modifies files, this`history
      ensures Flushed(codec, old(files.View()), mem, script, files.View(), ending)
      ensures View() == Remembered(old(View()), mem, files.View())
    {
      var records := Values(mem);
      var bytes := codec.encode(SortByHost(records));
      assert Pictures(codec, bytes, mem);
      ghost var before := files.replaced;
      ending := WriteThenRename(bytes, script);
      if |files.replaced| > |before| {
        history := history + [mem];
      }
    }

    function Get(host: string): (state: Option<DomainState>)
      reads this
      ensures state.Some? <==> host in mem
      ensures state.Some? ==> state.value == mem[host]
    {
      if host in mem then Some(mem[host]) else None
    }

    method Put(state: DomainState, script: Script) returns (ending: Ending)
      requires Faithful(codec) && Inv(codec, View())
      modifies this, files
      ensures Step(codec, old(View()), Act(Op.Put(state), script, ending), View()) && Inv(codec, View())
      ensures ending == Done ==> InSync(codec, View())
    {
      ghost var s := View();
      mem := mem[state.host := state];
      ending := Flush(script);
      StepKeepsInv(codec, s, Act(Op.Put(state), script, ending), View());
      StepOldOrNew(codec, s, Act(Op.Put(state), script, ending), View());
    }

    method Remove(host: string, script: Script) returns (ending: Ending)
      requires Faithful(codec) && Inv(codec, View())
      modifies this, files
      ensures Step(codec, old(View()), Act(Op.Remove(host), script, ending), View()) && Inv(codec, View())
    {
      ghost var s := View();
      if host !in mem {
        return Done;
      }
      mem := mem - {host};
      ending := Flush(script);
      StepKeepsInv(codec, s, Act(Op.Remove(host), script, ending), View());
    }

    method Update(host: string, change: DomainState -> DomainState, script: Script)
      returns (ending: Ending, next: DomainState)
      requires Faithful(codec) && Inv(codec, View())
      modifies this, files
      ensures Step(codec, old(View()), Act(Op.Update(host, change), script, ending), View()) && Inv(codec, View())
      ensures ending == Done ==> InSync(codec, View())
      ensures next == Updated(old(mem), host, change) && forall seen :: Given(old(mem), host, seen) ==> next == change(seen)
    {
      ghost var s := View();
      next := change(if host in mem then mem[host] else FreshState(host));
      mem := mem[next.host := next];
      ending := Flush(script);
      StepKeepsInv(codec, s, Act(Op.Update(host, change), script, ending), View());
      StepOldOrNew(codec, s, Act(Op.Update(host, change), script, ending), View());
    }
  }

  /** `InMemoryStateStore` of `src/state/store.rs`. */
  class InMemoryStateStore {
    var inner: Hosts

    constructor ()
      ensures inner == map[]
    {
      inner := map[];
    }

    method Put(state: DomainState)
      modifies this
      ensures inner == MemAfter(old(inner), Op.Put(state))
    {
      inner := inner[state.host := state];
    }

    method Remove(host: string)
      modifies this
      ensures inner == MemAfter(old(inner), Op.Remove(host))
    {
      inner := inner - {host};
    }

    method Update(host: string, change: DomainState -> DomainState) returns (next: DomainState)
      modifies this
      ensures inner == MemAfter(old(inner), Op.Update(host, change)) && next == Updated(old(inner), host, change)
      ensures forall seen :: Given(old(inner), host, seen) ==> next == change(seen)
    {
      next := change(if host in inner then inner[host] else FreshState(host));
      inner := inner[next.host := next];
    }
  }
}
