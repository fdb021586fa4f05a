/** The process supervisor: one iptsd process per device, tracked in a table of instances. */
module Supervisor {
  import opened Common

  const MAX_INSTANCES: nat := 8
  const KILL_RETRIES: nat := 50
  const SUSPEND_THRESHOLD_S: int := 1

  datatype DeviceType = Touchscreen | Touchpad

  datatype Info = Info(deviceType: DeviceType, vendor: nat, product: nat)

  /** What opening and inspecting a device node says about it. */
  datatype Probe = Unreadable | NotIpts | Ipts(info: Info)

  datatype Instance = Instance(active: bool, pid: int, path: string, info: Info)

  const UNUSED := Instance(false, 0, "", Info(Touchscreen, 0, 0))

  function Freed(inst: Instance): Instance {
    inst.(active := false, pid := 0)
  }

  /** The state of /dev during a scan; the listing is missing if it cannot be opened. */
  datatype Devices = Devices(listing: Option<seq<string>>, present: set<string>, probe: string -> Probe)

  datatype SignalNumber = SIGTERM | SIGKILL

  datatype Signal = Signal(pid: int, number: SignalNumber)

  // ---------------------------------------------------------------- the operating system

  type Pid = p: int | p > 0 witness 1

  /** The children that were not reaped yet; those in `exited` are no longer running. */
  class System {
    var children: set<int>
    var exited: set<int>
    var signals: seq<Signal>
    var failedForks: nat

    constructor ()
      ensures Valid() && children == {} && signals == [] && failedForks == 0
    {
      children, exited, signals, failedForks := {}, {}, [], 0;
    }

    ghost predicate Valid()
      reads this
    {
      exited <= children && forall p | p in children :: p > 0
    }

    /** Starts a child, or fails. */
    method Fork() returns (pid: int)
      requires Valid()
      modifies this`children, this`failedForks
      ensures Valid()
      ensures pid > 0 ==> pid !in old(children) && children == old(children) + {pid} && failedForks == old(failedForks)
      ensures pid <= 0 ==> children == old(children) && failedForks == old(failedForks) + 1
    {
      pid := *;
      if pid > 0 && pid !in children {
        children := children + {pid};
      } else {
        pid := -1;
        failedForks := failedForks + 1;
      }
    }

    /** Any number of children may exit at any time. */
    method SomeExit()
      requires Valid()
      modifies this`exited
      ensures Valid() && old(exited) <= exited
    {
      var more: set<int> := *;
      exited := exited + more * children;
    }

    /** Reaps one of the children that have exited, if there are any. */
    method WaitAny() returns (pid: int)
      requires Valid()
      modifies this`children, this`exited
      ensures Valid()
      ensures pid > 0 ==> pid in old(children) && children == old(children) - {pid} && old(exited) - {pid} <= exited
      ensures pid <= 0 ==> children == old(children) && exited == {} && old(exited) == {}
    {
      SomeExit();
      pid := 0;
      var gone: set<Pid> := exited;
      if gone != {} {
        pid :| pid in gone;
        children, exited := children - {pid}, exited - {pid};
      }
    }

    /** Waits for one child to exit, and reaps it. */
    method WaitFor(pid: int)
      requires Valid() && pid in children
      modifies this`children, this`exited
      ensures Valid() && children == old(children) - {pid}
    {
      SomeExit();
      children, exited := children - {pid}, exited - {pid};
    }

    /** Only children that were not reaped can be sent a signal: their pid cannot have been given to somebody else. */
    method Kill(pid: int, number: SignalNumber)
      requires Valid() && pid in children
      modifies this`signals
      ensures Valid() && signals == old(signals) + [Signal(pid, number)]
    {
      signals := signals + [Signal(pid, number)];
    }
  }

  // ---------------------------------------------------------------- the table

  ghost function ActivePids(s: seq<Instance>): set<int> {
    set i | 0 <= i < |s| && s[i].active :: s[i].pid
  }

  ghost predicate SamePid(s: seq<Instance>, i: nat, j: nat)
    requires i < |s| && j < |s|
  {
    s[i].active && s[j].active && s[i].pid == s[j].pid
  }

  ghost predicate SamePath(s: seq<Instance>, i: nat, j: nat)
    requires i < |s| && j < |s|
  {
    s[i].active && s[j].active && s[i].path == s[j].path
  }

  /** Active instances have distinct pids and distinct paths, and the slots from `count` on are not in use. */
  ghost predicate IsTable(s: seq<Instance>, count: nat) {
    && |s| == 8 && count <= 8
    && (forall i | count <= i < |s| :: !s[i].active)
    && (forall i, j | 0 <= i < |s| && 0 <= j < |s| && SamePid(s, i, j) :: i == j)
    && (forall i, j | 0 <= i < |s| && 0 <= j < |s| && SamePath(s, i, j) :: i == j)
  }

  ghost predicate Tracked(s: seq<Instance>, path: string) {
    exists i | 0 <= i < |s| :: s[i].active && s[i].path == path
  }

  ghost predicate Full(s: seq<Instance>) {
    forall i | 0 <= i < |s| :: s[i].active
  }

  /** Freeing a slot takes exactly its pid out of the active ones. */
  lemma SlotFreed(s: seq<Instance>, count: nat, i: nat)
    requires IsTable(s, count) && i < |s| && s[i].active
    ensures IsTable(s[i := Freed(s[i])], count)
    ensures ActivePids(s[i := Freed(s[i])]) == ActivePids(s) - {s[i].pid}
  {
    var t := s[i := Freed(s[i])];
    OtherPids(s, count, i);
    forall p
      ensures p in ActivePids(t) <==> p in ActivePids(s) && p != s[i].pid
    {
      if p in ActivePids(s) && p != s[i].pid {
        var k :| 0 <= k < |s| && s[k].active && s[k].pid == p;
        assert t[k] == s[k];
      }
      if p in ActivePids(t) {
        var k :| 0 <= k < |t| && t[k].active && t[k].pid == p;
        assert t[k] == s[k];
      }
    }
    forall a: nat, b: nat | a < |t| && b < |t| && SamePid(t, a, b)
      ensures a == b
    {
      assert SamePid(s, a, b);
    }
    forall a: nat, b: nat | a < |t| && b < |t| && SamePath(t, a, b)
      ensures a == b
    {
      assert SamePath(s, a, b);
    }
  }

  lemma OtherPids(s: seq<Instance>, count: nat, slot: nat)
    requires IsTable(s, count) && slot < |s| && s[slot].active
    ensures forall i | 0 <= i < |s| && s[i].active && s[i].pid == s[slot].pid :: i == slot
  {
    forall i: nat | i < |s| && s[i].active && s[i].pid == s[slot].pid
      ensures i == slot
    {
      assert SamePid(s, i, slot);
    }
  }

  lemma AllListed(s: seq<Instance>)
    ensures forall i | 0 <= i < |s| && s[i].active :: s[i].pid in ActivePids(s)
  {
  }

  /** Using a free slot adds exactly its pid to the active ones. */
  lemma SlotTaken(s: seq<Instance>, count: nat, i: nat, inst: Instance)
    requires IsTable(s, count) && i < count && !s[i].active && inst.active
    requires inst.pid !in ActivePids(s) && !Tracked(s, inst.path)
    ensures IsTable(s[i := inst], count)
    ensures ActivePids(s[i := inst]) == ActivePids(s) + {inst.pid}
  {
    var t := s[i := inst];
    assert t[i] == inst;
    forall p
      ensures p in ActivePids(t) <==> p in ActivePids(s) || p == inst.pid
    {
      if p in ActivePids(s) {
        var k :| 0 <= k < |s| && s[k].active && s[k].pid == p;
        assert t[k] == s[k];
      }
      if p in ActivePids(t) {
        var k :| 0 <= k < |t| && t[k].active && t[k].pid == p;
        assert k != i ==> t[k] == s[k];
      }
    }
    forall a: nat, b: nat | a < |t| && b < |t| && SamePid(t, a, b)
      ensures a == b
    {
      if a != i && b != i {
        assert SamePid(s, a, b);
      }
    }
    forall a: nat, b: nat | a < |t| && b < |t| && SamePath(t, a, b)
      ensures a == b
    {
      if a != i && b != i {
        assert SamePath(s, a, b);
      }
    }
  }

  /** There are as many children as active slots, so never more than slots. */
  lemma {:induction false} PidCardinality(s: seq<Instance>)
    requires forall i, j | 0 <= i < |s| && 0 <= j < |s| && SamePid(s, i, j) :: i == j
    ensures |ActivePids(s)| == CountActive(s) <= |s|
  {
    if s != [] {
      var n := |s| - 1;
      var rest := s[..n];
      forall i, j | 0 <= i < |rest| && 0 <= j < |rest| && SamePid(rest, i, j)
        ensures i == j
      {
        assert SamePid(s, i, j);
      }
      PidCardinality(rest);
      LastPid(s);
    }
  }

  lemma LastPid(s: seq<Instance>)
    requires s != [] && forall i, j | 0 <= i < |s| && 0 <= j < |s| && SamePid(s, i, j) :: i == j
    ensures var rest, last := s[..|s| - 1], s[|s| - 1];
            ActivePids(s) == (if last.active then ActivePids(rest) + {last.pid} else ActivePids(rest))
            && (last.active ==> last.pid !in ActivePids(rest))
  {
    var n := |s| - 1;
    var rest := s[..n];
    forall p
      ensures p in ActivePids(s) <==> p in ActivePids(rest) || (s[n].active && p == s[n].pid)
    {
      if k :| 0 <= k < |rest| && rest[k].active && rest[k].pid == p {
        assert s[k] == rest[k];
      }
      if k :| 0 <= k < |s| && s[k].active && s[k].pid == p {
        assert k < n ==> rest[k] == s[k];
      }
    }
    forall k | 0 <= k < |rest| && rest[k].active && s[n].active
      ensures rest[k].pid != s[n].pid
    {
      assert SamePid(s, k, n) ==> k == n;
    }
  }

  function CountActive(s: seq<Instance>): nat {
    if s == [] then 0
    else CountActive(s[..|s| - 1]) + if s[|s| - 1].active then 1 else 0
  }

  /** The signals a scan sends: one to every instance whose device is gone, in the order of the table. */
  function GoneSignals(s: seq<Instance>, present: set<string>): seq<Signal> {
    if s == [] then []
    else
      var n := |s| - 1;
      GoneSignals(s[..n], present) + if s[n].active && s[n].path !in present then [Signal(s[n].pid, SIGTERM)] else []
  }

  predicate IsDigit(c: char) {
    '0' <= c <= '9'
  }

  /** The name is hidraw followed by a number. */
  predicate IsHidraw(name: string) {
    |name| > 6 && name[..6] == "hidraw" && forall k | 6 <= k < |name| :: '0' <= name[k] <= '9'
  }

  /** A device that a scan should find. */
  predicate Eligible(d: Devices, name: string) {
    d.listing.Some? && name in d.listing.value && IsHidraw(name) && d.probe("/dev/" + name).Ipts?
  }

  /** An instance that a scan may add. */
  ghost predicate IsNew(d: Devices, inst: Instance) {
    inst.active && exists name | Eligible(d, name) ::
        inst.path == "/dev/" + name && d.probe(inst.path) == Ipts(inst.info)
  }

  /** Every device that is found has an instance, except for some of them, or the table is full. */
  ghost predicate Serves(d: Devices, table: seq<Instance>, missed: set<string>) {
    forall name | Eligible(d, name) :: Tracked(table, "/dev/" + name) || Full(table) || name in missed
  }

  lemma {:induction false} NobodyBeyond(s: seq<Instance>, count: nat, present: set<string>)
    requires count <= |s| && forall i | count <= i < |s| :: !s[i].active
    ensures GoneSignals(s, present) == GoneSignals(s[..count], present)
  {
    if count == |s| {
      assert s[..count] == s;
    } else {
      var n := |s| - 1;
      NobodyBeyond(s[..n], count, present);
      assert s[..n][..count] == s[..count];
    }
  }

  /** Exactly the processes of active instances whose device is gone are asked to terminate. */
  lemma {:induction false} GoneAreTerminated(s: seq<Instance>, present: set<string>, sig: Signal)
    ensures sig in GoneSignals(s, present) <==> sig.number == SIGTERM && exists i | 0 <= i < |s| ::
              IsGone(s[i], present, sig.pid)
  {
    hide IsGone;
    if s != [] {
      var n := |s| - 1;
      GoneAreTerminated(s[..n], present, sig);
      LastSignal(s, present, sig);
      assert forall i | 0 <= i < n :: s[..n][i] == s[i];
    }
  }

  ghost predicate IsGone(inst: Instance, present: set<string>, pid: int) {
    inst.active && inst.path !in present && inst.pid == pid
  }

  lemma LastSignal(s: seq<Instance>, present: set<string>, sig: Signal)
    requires s != []
    ensures sig in GoneSignals(s, present) <==>
            sig in GoneSignals(s[..|s| - 1], present)
              || (sig.number == SIGTERM && IsGone(s[|s| - 1], present, sig.pid))
  {
  }

  lemma {:induction false} NoneToSignal(s: seq<Instance>, present: set<string>)
    requires forall i | 0 <= i < |s| :: !s[i].active
    ensures GoneSignals(s, present) == []
  {
    if s != [] {
      NoneToSignal(s[..|s| - 1], present);
    }
  }

  lemma {:induction false} NoneActiveBeyond(s: seq<Instance>, count: nat)
    requires count <= |s| && forall i | count <= i < |s| :: !s[i].active
    ensures CountActive(s) == CountActive(s[..count])
  {
    if count == |s| {
      assert s[..count] == s;
    } else {
      var n := |s| - 1;
      NoneActiveBeyond(s[..n], count);
      assert s[..n][..count] == s[..count];
    }
  }

  /** A scan does not lose what was tracked, and a full table stays full. */
  lemma InstancesRemain(s: seq<Instance>, t: seq<Instance>, path: string)
    requires |s| == |t| && forall i | 0 <= i < |s| && s[i].active :: t[i] == s[i]
    ensures Tracked(s, path) ==> Tracked(t, path)
    ensures Full(s) ==> Full(t)
  {
    if i :| 0 <= i < |s| && s[i].active && s[i].path == path {
      assert t[i] == s[i];
    }
  }

  // ---------------------------------------------------------------- the manager

  class DeviceManager {
    const os: System
    const instances: array<Instance>
    var count: nat
    var rescanArmed: bool
    var suspended: int

    constructor ()
      ensures Valid() && fresh(os) && fresh(instances) && os.children == {} && count == 0 && !rescanArmed
      ensures os.signals == [] && os.failedForks == 0 && suspended == 0
    {
      os := new System();
      instances := new Instance[MAX_INSTANCES](_ => UNUSED);
      count, rescanArmed, suspended := 0, false, 0;
    }

    /** The children that were not reaped are exactly those of the active instances. */
    ghost predicate Valid()
      reads this, os, instances
    {
      && os.Valid()
      && IsTable(instances[..], count)
      && ActivePids(instances[..]) == os.children
    }

    method FindByPath(path: string) returns (found: bool)
      requires Valid()
      ensures found <==> Tracked(instances[..], path)
    {
      for i := 0 to count
        invariant i <= count <= instances.Length
        invariant forall k | 0 <= k < i :: !(instances[k].active && instances[k].path == path)
      {
        if instances[i].active && instances[i].path == path {
          assert instances[..][i] == instances[i];
          return true;
        }
      }
      return false;
    }

    method FindByPid(pid: int) returns (slot: Option<nat>)
      requires IsTable(instances[..], count)
      ensures slot.Some? ==> slot.value < count && instances[slot.value].active && instances[slot.value].pid == pid
      ensures slot.None? <==> pid !in ActivePids(instances[..])
    {
      for i := 0 to count
        invariant i <= count <= instances.Length
        invariant forall k | 0 <= k < i :: !(instances[k].active && instances[k].pid == pid)
      {
        if instances[i].active && instances[i].pid == pid {
          assert instances[..][i] == instances[i];
          return Some(i);
        }
      }
      return None;
    }

    /** A slot that is not in use, if there is one. */
    method AllocInstance() returns (slot: Option<nat>)
      requires Valid()
      modifies this`count
      ensures Valid() && old(count) <= count
      ensures slot.Some? ==> slot.value < count && !instances[slot.value].active
      ensures slot.None? <==> Full(instances[..])
    {
      for i := 0 to count
        invariant i <= count <= instances.Length && count == old(count)
        invariant forall k | 0 <= k < i :: instances[k].active
      {
        if !instances[i].active {
          assert !instances[..][i].active;
          return Some(i);
        }
      }
      if count >= MAX_INSTANCES {
        return None;
      }
      assert !instances[..][count].active;
      count := count + 1;
      return Some(count - 1);
    }

    /** Starts a process for a device, unless there is one, the table is full or the fork fails. */
    method Spawn(path: string, info: Info) returns (failed: bool)
      requires Valid()
      modifies this`count, os`children, os`failedForks, instances
      ensures Valid() && os.failedForks >= old(os.failedForks)
      ensures forall i | 0 <= i < instances.Length ::
                instances[i] == old(instances[i]) ||
                (!old(instances[i].active) && instances[i].active && instances[i].path == path
                    && instances[i].info == info)
      ensures !failed <==> Tracked(instances[..], path)
      ensures failed && os.failedForks == old(os.failedForks) ==> Full(instances[..])
      ensures old(Tracked(instances[..], path)) ==> instances[..] == old(instances[..])
    {
      var tracked := FindByPath(path);
      if tracked {
        return false;
      }
      var slot := AllocInstance();
      if slot.None? {
        return true;
      }
      var pid := os.Fork();
      if pid <= 0 {
        return true;
      }
      SlotTaken(instances[..], count, slot.value, Instance(true, pid, path, info));
      instances[slot.value] := Instance(true, pid, path, info);
      assert instances[..] == old(instances[..])[slot.value := Instance(true, pid, path, info)];
      assert instances[..][slot.value].path == path;
      return false;
    }

    /** Asks the processes whose device is gone to terminate. */
    method SignalGone(present: set<string>)
      requires Valid()
      modifies os`signals
      ensures Valid() && os.signals == old(os.signals) + GoneSignals(instances[..], present)
    {
      for i := 0 to count
        invariant i <= count && Valid()
        invariant os.signals == old(os.signals) + GoneSignals(instances[..i], present)
      {
        assert instances[..i + 1][..i] == instances[..i];
        if instances[i].active && instances[i].path !in present {
          assert instances[..][i] == instances[i];
          os.Kill(instances[i].pid, SIGTERM);
        }
      }
      NobodyBeyond(instances[..], count, present);
      assert instances[..count] == instances[..][..count];
    }

    method IsHidrawName(name: string) returns (hidraw: bool)
      ensures hidraw == IsHidraw(name)
    {
      if |name| < 6 || name[..6] != "hidraw" {
        return false;
      }
      var p := 6;
      while p < |name|
        invariant 6 <= p <= |name| && forall k | 6 <= k < p :: IsDigit(name[k])
      {
        if !IsDigit(name[p]) {
          return false;
        }
        p := p + 1;
      }
      return p != 6;
    }

    /** Looks at one entry of /dev. */
    method ScanEntry(d: Devices, name: string)
      requires Valid() && d.listing.Some? && name in d.listing.value
      modifies this`count, os`children, os`failedForks, instances
      ensures Valid() && os.failedForks >= old(os.failedForks)
      ensures forall i | 0 <= i < instances.Length ::
                instances[i] == old(instances[i]) ||
                (!old(instances[i].active) && IsNew(d, instances[i]))
      ensures Eligible(d, name) ==>
                || Tracked(instances[..], "/dev/" + name) || Full(instances[..])
                || os.failedForks > old(os.failedForks)
    {
      var hidraw := IsHidrawName(name);
      if !hidraw {
        return;
      }
      var path := "/dev/" + name;
      var tracked := FindByPath(path);
      if tracked {
        return;
      }
      match d.probe(path)
      case Unreadable => return;
      case NotIpts => return;
      case Ipts(info) =>
        var failed := Spawn(path, info);
        assert Eligible(d, name);
    }

    /** Brings the table in line with the devices. Running instances are left alone, new ones belong to devices that
        were found, and all devices that were found are served but for `missed`, one at most for each fork that
        failed. */
    method ScanAndReconcile(d: Devices) returns (result: int, ghost missed: set<string>)
      requires Valid()
      modifies this`count, os`children, os`failedForks, os`signals, instances
      ensures Valid() && |missed| <= os.failedForks - old(os.failedForks)
      ensures os.signals == old(os.signals) + GoneSignals(old(instances[..]), d.present)
      ensures forall i | 0 <= i < instances.Length ::
                instances[i] == old(instances[i]) || (!old(instances[i].active) && IsNew(d, instances[i]))
      ensures Serves(d, instances[..], missed)
      ensures result == if d.listing.None? then -1 else |os.children|
    {
      missed := {};
      SignalGone(d.present);
      if d.listing.None? {
        return -1, missed;
      }
      var names := d.listing.value;
      for n := 0 to |names|
        invariant Valid() && |missed| <= os.failedForks - old(os.failedForks)
        invariant os.signals == old(os.signals) + GoneSignals(old(instances[..]), d.present)
        invariant forall i | 0 <= i < instances.Length ::
                    instances[i] == old(instances[i]) || (!old(instances[i].active) && IsNew(d, instances[i]))
        invariant forall k | 0 <= k < n && Eligible(d, names[k]) ::
                    || Tracked(instances[..], "/dev/" + names[k]) || Full(instances[..])
                    || names[k] in missed
      {
        ghost var before, failures := instances[..], os.failedForks;
        ScanEntry(d, names[n]);
        if failures < os.failedForks {
          missed := missed + {names[n]};
        }
        forall k | 0 <= k < n && Eligible(d, names[k])
          ensures Tracked(instances[..], "/dev/" + names[k]) || Full(instances[..]) || names[k] in missed
        {
          InstancesRemain(before, instances[..], "/dev/" + names[k]);
        }
      }
      result := CountInstances();
    }

    method CountInstances() returns (n: nat)
      requires Valid()
      ensures n == |os.children|
    {
      n := 0;
      for i := 0 to count
        invariant i <= count && n == CountActive(instances[..i])
      {
        assert instances[..i + 1][..i] == instances[..i];
        if instances[i].active {
          n := n + 1;
        }
      }
      NoneActiveBeyond(instances[..], count);
      assert instances[..count] == instances[..][..count];
      PidCardinality(instances[..]);
    }

    method Free(slot: nat, ghost pid: int)
      requires os.Valid() && IsTable(instances[..], count) && slot < instances.Length
      requires instances[slot].active && instances[slot].pid == pid
      requires os.children == ActivePids(instances[..]) - {pid}
      modifies instances
      ensures Valid()
      ensures instances[slot] == Freed(old(instances[slot]))
      ensures forall i | 0 <= i < instances.Length && i != slot :: instances[i] == old(instances[i])
    {
      SlotFreed(instances[..], count, slot);
      instances[slot] := instances[slot].(active := false, pid := 0);
      assert instances[..] == old(instances[..])[slot := Freed(old(instances[..])[slot])];
    }

    /** Reaps one child that has exited, if there is one, and frees its slot. */
    method ReapOne() returns (pid: int, known: bool)
      requires Valid()
      modifies os`children, os`exited, instances
      ensures Valid() && known
      ensures pid > 0 ==>
                && pid in old(os.children) && os.children == old(os.children) - {pid}
                && old(os.exited) - {pid} <= os.exited
      ensures pid <= 0 ==> os.children == old(os.children) && os.exited == {} && old(os.exited) == {}
      ensures forall i | 0 <= i < instances.Length ::
                instances[i] == if old(instances[i].active) && old(instances[i].pid) !in os.children
                                then Freed(old(instances[i])) else old(instances[i])
    {
      known := true;
      AllListed(instances[..]);
      pid := os.WaitAny();
      if pid > 0 {
        var slot := FindByPid(pid);
        if slot.Some? {
          OtherPids(instances[..], count, slot.value);
          Free(slot.value, pid);
        } else {
          known := false;
        }
      }
    }

    /** Reaps every child that has exited and frees its slot; no child is ever unknown. */
    method ReapChildren() returns (reaped: nat, unknown: int)
      requires Valid()
      modifies os`children, os`exited, instances
      ensures Valid() && os.exited == {} && unknown == 0
      ensures old(os.exited) * os.children == {} && os.children <= old(os.children)
      ensures reaped == |old(os.children)| - |os.children|
      ensures forall i | 0 <= i < instances.Length ::
                instances[i] == if old(instances[i].active) && old(instances[i].pid) !in os.children
                                then Freed(old(instances[i])) else old(instances[i])
    {
      reaped, unknown := 0, 0;
      AllListed(instances[..]);
      var pid := 1;
      while pid > 0
        invariant Valid() && unknown == 0 && os.children <= old(os.children)
        invariant reaped == |old(os.children)| - |os.children|
        invariant old(os.exited) * os.children <= os.exited
        invariant pid <= 0 ==> os.exited == {}
        invariant forall i | 0 <= i < instances.Length ::
                    instances[i] == if old(instances[i].active) && old(instances[i].pid) !in os.children
                                    then Freed(old(instances[i])) else old(instances[i])
        decreases |os.children|, pid > 0
      {
        var known;
        pid, known := ReapOne();
        if pid > 0 {
          if !known {
            unknown := unknown + 1;
          }
          reaped := reaped + 1;
        }
      }
    }

    method SignalAll() returns (hadChildren: bool)
      requires Valid()
      modifies os`signals
      ensures Valid() && os.signals == old(os.signals) + GoneSignals(instances[..], {})
      ensures hadChildren <==> os.children != {}
    {
      hadChildren := false;
      for i := 0 to count
        invariant i <= count && Valid()
        invariant os.signals == old(os.signals) + GoneSignals(instances[..i], {})
        invariant hadChildren ==> os.children != {}
        invariant !hadChildren ==> forall k | 0 <= k < i :: !instances[k].active
      {
        assert instances[..i + 1][..i] == instances[..i];
        if instances[i].active {
          assert instances[..][i] == instances[i];
          assert instances[i].pid in os.children;
          os.Kill(instances[i].pid, SIGTERM);
          hadChildren := true;
        }
      }
      NobodyBeyond(instances[..], count, {});
      assert instances[..count] == instances[..][..count];
    }

    /** Gives the children some time to exit, and frees the slots of those that do. */
    method WaitGently()
      requires Valid()
      modifies os`children, os`exited, instances
      ensures Valid() && os.children <= old(os.children)
    {
      var retries := KILL_RETRIES;
      while retries > 0
        invariant Valid() && os.children <= old(os.children)
      {
        retries := retries - 1;
        var pid := os.WaitAny();
        if pid > 0 {
          var slot := FindByPid(pid);
          if slot.Some? {
            Free(slot.value, pid);
          }
        }
      }
    }

    /** Kills the children that are left, and waits for each of them. */
    method ForceKill()
      requires Valid()
      modifies os`children, os`exited, os`signals, instances
      ensures Valid() && os.children == {}
      ensures |os.signals| >= |old(os.signals)| && os.signals[..|old(os.signals)|] == old(os.signals)
      ensures forall k | |old(os.signals)| <= k < |os.signals| ::
                os.signals[k].number == SIGKILL && os.signals[k].pid in old(os.children)
    {
      for i := 0 to count
        invariant i <= count && Valid() && os.children <= old(os.children)
        invariant forall k | 0 <= k < i :: !instances[k].active
        invariant |os.signals| >= |old(os.signals)| && os.signals[..|old(os.signals)|] == old(os.signals)
        invariant forall k | |old(os.signals)| <= k < |os.signals| ::
                    os.signals[k].number == SIGKILL && os.signals[k].pid in old(os.children)
      {
        if instances[i].active {
          assert instances[..][i] == instances[i];
          assert instances[i].pid in os.children;
          os.Kill(instances[i].pid, SIGKILL);
          os.WaitFor(instances[i].pid);
          Free(i, instances[i].pid);
        }
      }
    }

    /** Ends every child: all are asked to terminate, and those that do not are killed. Nothing is left. */
    method KillAll()
      requires Valid()
      modifies this`count, os`children, os`exited, os`signals, instances
      ensures Valid() && os.children == {} && count == 0
      ensures old(os.signals) + GoneSignals(old(instances[..]), {}) <= os.signals
      ensures forall k | |old(os.signals)| + |GoneSignals(old(instances[..]), {})| <= k < |os.signals| ::
                os.signals[k].number == SIGKILL && os.signals[k].pid in old(os.children)
    {
      var hadChildren := SignalAll();
      if hadChildren {
        WaitGently();
        ForceKill();
      }
      NoChildrenNoInstances(instances[..]);
      count := 0;
    }

    /** After a resume every process is new, and they serve all devices that are found. The old ones were asked to
        terminate, or killed. */
    method HandleResume(d: Devices, after: int) returns (ghost missed: set<string>)
      requires Valid()
      modifies this`count, this`suspended, os, instances
      ensures Valid() && suspended == after
      ensures forall i | 0 <= i < instances.Length && instances[i].active :: IsNew(d, instances[i])
      ensures Serves(d, instances[..], missed) && |missed| <= os.failedForks - old(os.failedForks)
      ensures Terminated(old(instances[..]), old(os.children), old(os.signals), os.signals)
    {
      KillAll();
      NoChildrenNoInstances(instances[..]);
      assert forall i | 0 <= i < instances.Length :: !instances[..][i].active;
      NoneToSignal(instances[..], d.present);
      var served;
      served, missed := ScanAndReconcile(d);
      suspended := after;
    }

    ghost function Look(): Snapshot
      reads this, os, instances
    {
      Snapshot(instances[..], os.children, os.exited, os.signals, os.failedForks, rescanArmed, suspended)
    }

    method HandleChild()
      requires Valid()
      modifies this`rescanArmed, os`children, os`exited, instances
      ensures Valid() && Handled(ChildSignal, old(Look()), Look())
    {
      var reaped, _ := ReapChildren();
      if reaped > 0 {
        rescanArmed := true;
      } else {
        SameSize(os.children, old(os.children));
      }
      assert HandledBut(ChildSignal, old(Look()), Look(), {});
    }

    method HandleChange(names: seq<string>)
      requires Valid()
      modifies this`rescanArmed
      ensures Valid() && Handled(DeviceChange(names), old(Look()), Look())
    {
      for i := 0 to |names|
        invariant rescanArmed <==>
                    old(rescanArmed) || exists k :: 0 <= k < i && |names[k]| >= 6 && names[k][..6] == "hidraw"
      {
        if |names[i]| >= 6 && names[i][..6] == "hidraw" {
          rescanArmed := true;
        }
      }
      assert forall k | 0 <= k < |names| :: names[k] in names;
      assert HandledBut(DeviceChange(names), old(Look()), Look(), {});
    }

    method HandleTimer(d: Devices)
      requires Valid()
      modifies this`count, this`rescanArmed, os`children, os`failedForks, os`signals, instances
      ensures Valid() && Handled(TimerExpired(d), old(Look()), Look())
    {
      ghost var missed: set<string> := {};
      if rescanArmed {
        rescanArmed := false;
        var served;
        served, missed := ScanAndReconcile(d);
      }
      assert HandledBut(TimerExpired(d), old(Look()), Look(), missed);
    }

    method HandleTick(delta: int, d: Devices, after: int)
      requires Valid()
      modifies this`count, this`suspended, os, instances
      ensures Valid() && Handled(ResumeTick(delta, d, after), old(Look()), Look())
    {
      ghost var missed: set<string> := {};
      var slept := delta - suspended;
      suspended := delta;
      if slept >= SUSPEND_THRESHOLD_S {
        missed := HandleResume(d, after);
      }
      assert HandledBut(ResumeTick(delta, d, after), old(Look()), Look(), missed);
    }

    /** One event of the main loop. */
    method Handle(e: ManagerEvent)
      requires Valid()
      modifies this, os, instances
      ensures Valid() && Handled(e, old(Look()), Look())
    {
      hide Handled;
      match e
      case ChildSignal => HandleChild();
      case DeviceChange(names) => HandleChange(names);
      case TimerExpired(d) => HandleTimer(d);
      case ResumeTick(delta, d, after) => HandleTick(delta, d, after);
    }
  }

  datatype ManagerEvent =
    | ChildSignal
    | DeviceChange(names: seq<string>)
    | TimerExpired(devices: Devices)
    | ResumeTick(delta: int, devices: Devices, after: int)

  /** What can be seen of the supervisor between two events. */
  datatype Snapshot = Snapshot(table: seq<Instance>, children: set<int>, exited: set<int>, signals: seq<Signal>,
                               failedForks: nat, armed: bool, suspended: int)

  /** Every process of the table was asked to terminate, and after that only killed. */
  ghost predicate Terminated(table: seq<Instance>, children: set<int>, before: seq<Signal>, after: seq<Signal>) {
    && before + GoneSignals(table, {}) <= after
    && forall k | |before| + |GoneSignals(table, {})| <= k < |after| ::
         after[k].number == SIGKILL && after[k].pid in children
  }

  /** The slots of the processes that are gone are free, the others are as they were. */
  ghost predicate Reaped(a: Snapshot, b: Snapshot) {
    |a.table| == |b.table| && forall i | 0 <= i < |a.table| ::
      b.table[i] == if a.table[i].active && a.table[i].pid !in b.children then Freed(a.table[i]) else a.table[i]
  }

  /** Running instances are left alone, and new ones serve devices that were found. */
  ghost predicate Rescanned(d: Devices, a: Snapshot, b: Snapshot) {
    |a.table| == |b.table| && forall i | 0 <= i < |a.table| ::
      b.table[i] == a.table[i] || (!a.table[i].active && IsNew(d, b.table[i]))
  }

  /** What an event makes of the supervisor. A child that is lost or a change of a device arms the rescan; when it is
      due, and after a resume, all devices that are found are served, but for one for each fork that fails. */
  ghost predicate HandledBut(e: ManagerEvent, a: Snapshot, b: Snapshot, missed: set<string>) {
    && |missed| <= b.failedForks - a.failedForks
    && match e
       case ChildSignal =>
         && b.exited == {} && a.exited * b.children == {} && b.children <= a.children && Reaped(a, b)
         && b == a.(table := b.table, children := b.children, exited := {},
                    armed := a.armed || b.children != a.children)
       case DeviceChange(names) =>
         b == a.(armed := a.armed || exists name :: name in names && |name| >= 6 && name[..6] == "hidraw")
       case TimerExpired(d) =>
         if !a.armed then b == a
         else
           && !b.armed && b.suspended == a.suspended && Rescanned(d, a, b) && Serves(d, b.table, missed)
           && b.signals == a.signals + GoneSignals(a.table, d.present)
       case ResumeTick(delta, d, after) =>
         if delta - a.suspended < 1 then b == a.(suspended := delta)
         else
           && b.armed == a.armed && b.suspended == after && Serves(d, b.table, missed)
           && (forall inst | inst in b.table && inst.active :: IsNew(d, inst))
           && Terminated(a.table, a.children, a.signals, b.signals)
  }

  ghost predicate Handled(e: ManagerEvent, a: Snapshot, b: Snapshot) {
    exists missed :: HandledBut(e, a, b, missed)
  }

  /** A run of the main loop: every event is handled, in order. */
  ghost predicate IsRun(events: seq<ManagerEvent>, trace: seq<Snapshot>) {
    |trace| == |events| + 1 && forall i | 0 <= i < |events| :: Handled(events[i], trace[i], trace[i + 1])
  }

  lemma SameSize(a: set<int>, b: set<int>)
    requires a <= b && |a| >= |b|
    ensures a == b
  {
    var rest := b - a;
    assert b == a + rest;
    assert |b| == |a| + |rest|;
  }

  lemma ActiveIsListed(s: seq<Instance>, i: nat)
    requires i < |s|
    ensures s[i].active ==> s[i].pid in ActivePids(s)
  {
  }

  lemma NoChildrenNoInstances(s: seq<Instance>)
    requires ActivePids(s) == {}
    ensures forall i | 0 <= i < |s| :: !s[i].active
  {
    forall i | 0 <= i < |s|
      ensures !s[i].active
    {
      ActiveIsListed(s, i);
    }
  }

  /** After the first scan: all devices that were found are served, but for one for each fork that failed. */
  ghost predicate Started(d: Devices, b: Snapshot) {
    && (forall inst | inst in b.table && inst.active :: IsNew(d, inst))
    && b.signals == [] && !b.armed && b.suspended == 0
    && exists missed: set<string> :: |missed| <= b.failedForks && Serves(d, b.table, missed)
  }

  /** It gives up at once if it cannot scan, or finds neither a device nor a driver. */
  ghost predicate GivesUp(d: Devices, modulesLoaded: bool, b: Snapshot) {
    d.listing.None? || (b.children == {} && !modulesLoaded)
  }

  /** The whole life of the supervisor: unless it gives up, it handles all events in turn and ends all its processes; in
      any case it leaves none behind. */
  method Supervise(first: Devices, modulesLoaded: bool, events: seq<ManagerEvent>)
      returns (m: DeviceManager, ghost trace: seq<Snapshot>)
    ensures fresh(m) && m.Valid() && m.os.children == {}
    ensures |trace| > 0 && Started(first, trace[0])
    ensures if GivesUp(first, modulesLoaded, trace[0]) then |trace| == 1 && m.Look() == trace[0]
            else
              IsRun(events, trace) &&
              var end := trace[|events|]; Terminated(end.table, end.children, end.signals, m.os.signals)
  {
    hide Handled;
    m := new DeviceManager();
    NoChildrenNoInstances(m.instances[..]);
    assert forall i | 0 <= i < m.instances.Length :: !m.instances[..][i].active;
    NoneToSignal(m.instances[..], first.present);
    var result, missed := m.ScanAndReconcile(first);
    trace := [m.Look()];
    ghost var begin := m.Look();
    assert |missed| <= m.os.failedForks;
    if result < 0 {
      assert m.os.children == {};
      return;
    }
    if result == 0 && !modulesLoaded {
      return;
    }
    for i := 0 to |events|
      invariant fresh(m) && fresh(m.os) && fresh(m.instances) && m.Valid()
      invariant |trace| == i + 1 && trace[i] == m.Look() && trace[0] == begin
      invariant forall k | 0 <= k < i :: Handled(events[k], trace[k], trace[k + 1])
    {
      m.Handle(events[i]);
      trace := trace + [m.Look()];
    }
    m.KillAll();
  }
}
