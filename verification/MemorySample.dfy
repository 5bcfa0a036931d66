/**
 Per-role memory totals and their reconciliation (scripts/container_memory_sample.py:14-29, 237-289, 387-395,
 527-575). A reading that a process lacks is absent from its map and makes every sum over it unknown.
 */
module MemorySample {
  import opened Text
  import opened FirstSeen
  import opened Permutations
  import opened StableSort

  /** The summed keys. */
  datatype Metric = Pss | PrivatePages | SharedClean | SharedDirty | PssAnon | PssFile | PssShmem

  const METRICS := {Pss, PrivatePages, SharedClean, SharedDirty, PssAnon, PssFile, PssShmem}

  datatype Process = Process(pid: int, role: string, full: bool, values: map<Metric, nat>,
                             rss: Option<nat>, fds: Option<nat>, uptime: Option<int>)

  function Reading(p: Process, m: Metric): Option<nat> {
    if m in p.values then Some(p.values[m]) else None
  }

  datatype Budget = Budget(processCount: nat, measuredCount: nat, rssOnlyCount: nat, rss: nat, fds: nat,
                           maxUptime: Option<int>, maxPss: Option<nat>, maxPssPid: Option<int>,
                           sums: map<Metric, Option<nat>>)

  // ----- roll-up

  function Empty(): Budget {
    Budget(0, 0, 0, 0, 0, None, None, None, map m | m in METRICS :: Some(0))
  }

  function AddReading(sum: Option<nat>, value: Option<nat>): Option<nat> {
    if sum.Some? && value.Some? then Some(sum.value + value.value) else None
  }

  function Greater(current: Option<int>, value: Option<int>): Option<int> {
    if value.None? then current
    else if current.None? || value.value > current.value then value
    else current
  }

  function OrZero(value: Option<nat>): nat {
    if value.Some? then value.value else 0
  }

  function Add(b: Budget, p: Process): Budget {
    var pss := Reading(p, Pss);
    var record := pss.Some? && (b.maxPss.None? || pss.value > b.maxPss.value);
    Budget(b.processCount + 1,
           b.measuredCount + (if p.full then 1 else 0),
           b.rssOnlyCount + (if p.full then 0 else 1),
           b.rss + OrZero(p.rss),
           b.fds + OrZero(p.fds),
           Greater(b.maxUptime, p.uptime),
           if record then pss else b.maxPss,
           if record then Some(p.pid) else b.maxPssPid,
           map m | m in METRICS :: AddReading(if m in b.sums then b.sums[m] else None, Reading(p, m)))
  }

  /** The budget of a role with the given members. */
  function BudgetOf(members: seq<Process>): Budget {
    if members == [] then Empty() else Add(BudgetOf(members[..|members| - 1]), members[|members| - 1])
  }

  function HasRole(role: string): Process -> bool {
    (p: Process) => p.role == role
  }

  function Members(processes: seq<Process>, role: string): seq<Process> {
    Select(processes, HasRole(role))
  }

  lemma BudgetGrows(members: seq<Process>, p: Process)
    ensures BudgetOf(members + [p]) == Add(BudgetOf(members), p)
  {
    assert (members + [p])[..|members|] == members;
  }

  ghost predicate RoleOk(processes: seq<Process>, roles: map<string, Budget>, role: string) {
    var members := Members(processes, role);
    if members == [] then role !in roles else role in roles && roles[role] == BudgetOf(members)
  }

  /** One budget for each role that a process has, made from the members of that role. */
  ghost predicate RolledUp(processes: seq<Process>, roles: map<string, Budget>) {
    forall role :: RoleOk(processes, roles, role)
  }

  function Recorded(roles: map<string, Budget>, p: Process): map<string, Budget> {
    roles[p.role := Add(if p.role in roles then roles[p.role] else Empty(), p)]
  }

  lemma NoMembers()
    ensures BudgetOf([]) == Empty()
  {
  }

  lemma RoleGrows(processes: seq<Process>, roles: map<string, Budget>, p: Process, role: string)
    requires RoleOk(processes, roles, role)
    ensures RoleOk(processes + [p], Recorded(roles, p), role)
  {
    hide BudgetOf, Add, Empty, Select;
    SelectAppend(processes, p, HasRole(role));
    BudgetGrows(Members(processes, role), p);
    NoMembers();
  }

  lemma RolledUpGrows(processes: seq<Process>, roles: map<string, Budget>, p: Process)
    requires RolledUp(processes, roles)
    ensures RolledUp(processes + [p], Recorded(roles, p))
  {
    hide RoleOk, Recorded;
    forall role ensures RoleOk(processes + [p], Recorded(roles, p), role) {
      RoleGrows(processes, roles, p, role);
    }
  }

  lemma NothingRolledUp()
    ensures RolledUp([], map[])
  {
  }

  method RollUp(processes: seq<Process>) returns (roles: map<string, Budget>)
    ensures RolledUp(processes, roles)
  {
    hide RolledUp, Add, Empty;
    roles := map[];
    NothingRolledUp();
    assert processes[..0] == [];
    for i := 0 to |processes|
      invariant RolledUp(processes[..i], roles)
    {
      var process := processes[i];
      RolledUpGrows(processes[..i], roles, process);
      assert processes[..i] + [process] == processes[..i + 1];
      var budget := if process.role in roles then roles[process.role] else Empty();
      roles := roles[process.role := Add(budget, process)];
    }
    assert processes[..|processes|] == processes;
  }

  // ----- what the totals mean

  predicate AllKnown(processes: seq<Process>, m: Metric) {
    forall p :: p in processes ==> m in p.values
  }

  /** The sum of the known readings. */
  function Sum(processes: seq<Process>, m: Metric): nat {
    if processes == [] then 0 else OrZero(Reading(processes[0], m)) + Sum(processes[1..], m)
  }

  lemma {:induction false} SumAppend(processes: seq<Process>, p: Process, m: Metric)
    ensures Sum(processes + [p], m) == Sum(processes, m) + OrZero(Reading(p, m))
  {
    if processes == [] {
      assert processes + [p] == [p];
    } else {
      SumAppend(processes[1..], p, m);
      assert (processes + [p])[1..] == processes[1..] + [p];
    }
  }

  lemma AddedSums(b: Budget, p: Process, m: Metric)
    ensures m in Add(b, p).sums && m in Empty().sums && Empty().sums[m] == Some(0)
    ensures m in b.sums ==> Add(b, p).sums[m] == AddReading(b.sums[m], Reading(p, m))
  {
    assert m in METRICS;
  }

  /** The total of a role is the exact sum of its members, or unknown iff a member is unknown. */
  lemma {:induction false} RoleTotal(members: seq<Process>, m: Metric)
    ensures m in BudgetOf(members).sums
    ensures BudgetOf(members).sums[m] == if AllKnown(members, m) then Some(Sum(members, m)) else None
  {
    hide Add, Empty;
    if members == [] {
      AddedSums(Empty(), Process(0, "", true, map[], None, None, None), m);
    } else {
      var front, last := members[..|members| - 1], members[|members| - 1];
      assert members == front + [last];
      RoleTotal(front, m);
      AddedSums(BudgetOf(front), last, m);
      SumAppend(front, last, m);
      hide BudgetOf, Sum;
      BudgetGrows(front, last);
      KnownAppend(front, last, m);
    }
  }

  lemma KnownAppend(front: seq<Process>, last: Process, m: Metric)
    ensures AllKnown(front + [last], m) <==> AllKnown(front, m) && m in last.values
  {
    assert forall p :: p in front + [last] <==> p in front || p == last;
  }

  /** Members split into measured ones and those with only a resident size. */
  lemma {:induction false} RoleCounts(members: seq<Process>)
    ensures var b := BudgetOf(members);
      b.processCount == |members| && b.measuredCount + b.rssOnlyCount == b.processCount
    ensures BudgetOf(members).rssOnlyCount == 0 <==> forall p :: p in members ==> p.full
  {
    if members != [] {
      RoleCounts(members[..|members| - 1]);
      assert forall p :: p in members <==> p in members[..|members| - 1] || p == members[|members| - 1];
    }
  }

  /** The first process with the largest known reading. */
  ghost predicate FirstLargest(members: seq<Process>, i: int, largest: nat) {
    && 0 <= i < |members| && Pss in members[i].values && members[i].values[Pss] == largest
    && forall j :: 0 <= j < i && Pss in members[j].values ==> members[j].values[Pss] < largest
  }

  ghost predicate IsMaximum(b: Budget, members: seq<Process>) {
    && (b.maxPss.None? <==> forall p :: p in members ==> Pss !in p.values)
    && (b.maxPss.Some? ==>
          && (exists i :: FirstLargest(members, i, b.maxPss.value) && b.maxPssPid == Some(members[i].pid))
          && forall p :: p in members && Pss in p.values ==> p.values[Pss] <= b.maxPss.value)
  }

  lemma MaximumGrows(b: Budget, members: seq<Process>, p: Process)
    requires IsMaximum(b, members)
    ensures IsMaximum(Add(b, p), members + [p])
  {
    var more, c := members + [p], Add(b, p);
    LargestGrows(b, p);
    hide Add;
    assert forall x :: x in more <==> x in members || x == p;
    assert forall i :: 0 <= i < |members| ==> more[i] == members[i] && members[i] in members;
    if Pss in p.values && (b.maxPss.None? || p.values[Pss] > b.maxPss.value) {
      assert FirstLargest(more, |members|, c.maxPss.value);
    } else if b.maxPss.Some? {
      var i :| FirstLargest(members, i, b.maxPss.value) && b.maxPssPid == Some(members[i].pid);
      assert FirstLargest(more, i, c.maxPss.value);
    }
  }

  /** `max_pss_kib` is the largest known reading, and `max_pss_pid` the first process that has it. */
  lemma {:induction false} RoleMaximum(members: seq<Process>)
    ensures IsMaximum(BudgetOf(members), members)
  {
    if members != [] {
      var front, last := members[..|members| - 1], members[|members| - 1];
      RoleMaximum(front);
      hide IsMaximum, Add;
      MaximumGrows(BudgetOf(front), front, last);
      assert members == front + [last];
    }
  }

  lemma LargestGrows(b: Budget, p: Process)
    ensures var c := Add(b, p);
      if Pss in p.values && (b.maxPss.None? || p.values[Pss] > b.maxPss.value)
      then c.maxPss == Some(p.values[Pss]) && c.maxPssPid == Some(p.pid)
      else c.maxPss == b.maxPss && c.maxPssPid == b.maxPssPid
  {
  }

  /** `max_uptime_seconds` is the longest known uptime. */
  lemma {:induction false} RoleUptime(members: seq<Process>)
    ensures var b := BudgetOf(members);
      && (b.maxUptime.None? <==> forall p :: p in members ==> p.uptime.None?)
      && (b.maxUptime.Some? ==>
            && (exists p :: p in members && p.uptime == b.maxUptime)
            && forall p :: p in members && p.uptime.Some? ==> p.uptime.value <= b.maxUptime.value)
  {
    if members != [] {
      var front, last := members[..|members| - 1], members[|members| - 1];
      RoleUptime(front);
      assert forall p :: p in members <==> p in front || p == last;
      UptimeGrows(BudgetOf(front), last);
      hide Add;
    }
  }

  lemma UptimeGrows(b: Budget, p: Process)
    ensures Add(b, p).maxUptime == Greater(b.maxUptime, p.uptime)
  {
  }

  // ----- the order of the processes does not matter

  function Amount(m: Metric): Process -> nat {
    (p: Process) => OrZero(Reading(p, m))
  }

  lemma {:induction false} SumIsSumBy(processes: seq<Process>, m: Metric)
    ensures Sum(processes, m) == SumBy(processes, Amount(m))
  {
    if processes != [] {
      SumIsSumBy(processes[1..], m);
    }
  }

  lemma SumPermutes(mine: seq<Process>, theirs: seq<Process>, m: Metric)
    requires multiset(mine) == multiset(theirs)
    ensures Sum(mine, m) == Sum(theirs, m)
    ensures |mine| == |theirs| && forall p :: p in mine <==> p in theirs
  {
    SumIsSumBy(mine, m);
    SumIsSumBy(theirs, m);
    SumByPermutes(mine, theirs, Amount(m));
    assert |mine| == |multiset(mine)| && |theirs| == |multiset(theirs)|;
    assert forall p :: p in mine <==> p in multiset(mine);
    assert forall p :: p in theirs <==> p in multiset(theirs);
  }

  lemma MaximumPermutes(mine: seq<Process>, theirs: seq<Process>)
    requires forall p :: p in mine <==> p in theirs
    ensures BudgetOf(mine).maxPss == BudgetOf(theirs).maxPss
    ensures BudgetOf(mine).maxUptime == BudgetOf(theirs).maxUptime
  {
    RoleMaximum(mine);
    RoleMaximum(theirs);
    RoleUptime(mine);
    RoleUptime(theirs);
    hide BudgetOf;
  }

  function FullOne(p: Process): nat { if p.full then 1 else 0 }
  function RssOnlyOne(p: Process): nat { if p.full then 0 else 1 }
  function RssOf(p: Process): nat { OrZero(p.rss) }
  function FdsOf(p: Process): nat { OrZero(p.fds) }

  /** The counts and the sums that leave unknown values out. */
  lemma {:induction false} RoleSums(members: seq<Process>)
    ensures var b := BudgetOf(members);
      && b.measuredCount == SumBy(members, FullOne) && b.rssOnlyCount == SumBy(members, RssOnlyOne)
      && b.rss == SumBy(members, RssOf) && b.fds == SumBy(members, FdsOf)
  {
    if members != [] {
      var front, last := members[..|members| - 1], members[|members| - 1];
      assert members == front + [last];
      RoleSums(front);
      SumByLast(front, last, FullOne);
      SumByLast(front, last, RssOnlyOne);
      SumByLast(front, last, RssOf);
      SumByLast(front, last, FdsOf);
      hide SumBy;
    }
  }

  lemma SumByLast(front: seq<Process>, last: Process, f: Process -> nat)
    ensures SumBy(front + [last], f) == SumBy(front, f) + f(last)
  {
    SumBySplit(front, [last], f);
    SumByCons(last, [], f);
    assert [last] + [] == [last];
  }

  lemma SumsPermute(mine: seq<Process>, theirs: seq<Process>)
    requires multiset(mine) == multiset(theirs)
    ensures var b, c := BudgetOf(mine), BudgetOf(theirs);
      && b.measuredCount == c.measuredCount && b.rssOnlyCount == c.rssOnlyCount
      && b.rss == c.rss && b.fds == c.fds
  {
    hide BudgetOf, SumBy;
    RoleSums(mine);
    RoleSums(theirs);
    SumByPermutes(mine, theirs, FullOne);
    SumByPermutes(mine, theirs, RssOnlyOne);
    SumByPermutes(mine, theirs, RssOf);
    SumByPermutes(mine, theirs, FdsOf);
  }

  /** All counts, totals and maxima of every role are the same for every order of the processes. */
  lemma TotalsPermute(processes: seq<Process>, others: seq<Process>, role: string)
    requires multiset(processes) == multiset(others)
    ensures var b, c := BudgetOf(Members(processes, role)), BudgetOf(Members(others, role));
      && (forall m: Metric :: m in b.sums && m in c.sums && b.sums[m] == c.sums[m])
      && b.(maxPssPid := None, sums := map[]) == c.(maxPssPid := None, sums := map[])
  {
    hide BudgetOf, Members, Sum, AllKnown;
    var mine, theirs := Members(processes, role), Members(others, role);
    MembersPermute(processes, others, role);
    forall m: Metric ensures m in BudgetOf(mine).sums && m in BudgetOf(theirs).sums
                          && BudgetOf(mine).sums[m] == BudgetOf(theirs).sums[m] {
      MetricPermutes(mine, theirs, m);
    }
    SumsPermute(mine, theirs);
    SumPermutes(mine, theirs, Pss);
    RoleCounts(mine);
    RoleCounts(theirs);
    MaximumPermutes(mine, theirs);
  }

  lemma MetricPermutes(mine: seq<Process>, theirs: seq<Process>, m: Metric)
    requires multiset(mine) == multiset(theirs)
    ensures m in BudgetOf(mine).sums && m in BudgetOf(theirs).sums
    ensures BudgetOf(mine).sums[m] == BudgetOf(theirs).sums[m]
  {
    hide BudgetOf, Sum;
    SumPermutes(mine, theirs, m);
    RoleTotal(mine, m);
    RoleTotal(theirs, m);
  }

  lemma MembersPermute(processes: seq<Process>, others: seq<Process>, role: string)
    requires multiset(processes) == multiset(others)
    ensures multiset(Members(processes, role)) == multiset(Members(others, role))
  {
    SelectPermutes(processes, others, HasRole(role));
  }

  // ----- reconciliation

  /** `_sum_or_none`, in bytes. */
  method SumOrNone(processes: seq<Process>, m: Metric) returns (bytes: Option<nat>)
    ensures bytes == if AllKnown(processes, m) then Some(1024 * Sum(processes, m)) else None
  {
    var total := 0;
    for i := 0 to |processes|
      invariant AllKnown(processes[..i], m) && total == Sum(processes[..i], m)
    {
      var value := Reading(processes[i], m);
      assert processes[..i + 1] == processes[..i] + [processes[i]];
      if value.None? {
        return None;
      }
      SumAppend(processes[..i], processes[i], m);
      total := total + value.value;
    }
    assert processes[..|processes|] == processes;
    return Some(total * 1024);
  }

  function IsFull(p: Process): bool { p.full }
  function IsRssOnly(p: Process): bool { !p.full }

  datatype Reconciliation = Reconciliation(pssBytes: nat, privateBytes: nat, complete: bool, valid: bool)

  /** The reconciliation part of `sample`; an unknown sum counts as zero for PSS and private pages. */
  method Reconcile(processes: seq<Process>) returns (r: Reconciliation)
    ensures var measured := Select(processes, IsFull);
      && r.pssBytes == (if AllKnown(measured, Pss) then 1024 * Sum(measured, Pss) else 0)
      && r.privateBytes == (if AllKnown(measured, PrivatePages) then 1024 * Sum(measured, PrivatePages) else 0)
      && r.complete == (forall p :: p in processes ==> p.full)
      && r.valid == (r.complete && processes != [])
  {
    var measured := Select(processes, IsFull);
    var rssOnly := Select(processes, IsRssOnly);
    var pss := SumOrNone(measured, Pss);
    var private_ := SumOrNone(measured, PrivatePages);
    if rssOnly == [] {
      forall p | p in processes ensures p.full {
        assert p !in rssOnly;
      }
      assert processes != [] ==> processes[0] in measured;
    } else {
      assert rssOnly[0] in rssOnly;
    }
    assert measured != [] ==> measured[0] in measured;
    r := Reconciliation(OrZero(pss), OrZero(private_), rssOnly == [], rssOnly == [] && measured != []);
  }

  /** Smaps readings always include PSS; a process without them has none. */
  ghost predicate Captured(processes: seq<Process>) {
    forall p :: p in processes ==> (p.full <==> Pss in p.values)
  }

  function RoleSum(roles: seq<string>, processes: seq<Process>, m: Metric): nat {
    if roles == [] then 0 else Sum(Members(processes, roles[0]), m) + RoleSum(roles[1..], processes, m)
  }

  function RolesIn(processes: seq<Process>): seq<string> {
    Unique(seq(|processes|, i requires 0 <= i < |processes| => processes[i].role))
  }

  lemma {:induction false} RoleSumCons(roles: seq<string>, p: Process, rest: seq<Process>, m: Metric)
    requires forall i, j :: 0 <= i < j < |roles| ==> roles[i] != roles[j]
    ensures RoleSum(roles, [p] + rest, m)
         == RoleSum(roles, rest, m) + if p.role in roles then OrZero(Reading(p, m)) else 0
  {
    if roles != [] {
      RoleSumCons(roles[1..], p, rest, m);
      SelectCons(p, rest, HasRole(roles[0]));
      if p.role == roles[0] {
        assert ([p] + Members(rest, roles[0]))[1..] == Members(rest, roles[0]);
      }
    }
  }

  lemma {:induction false} NoProcesses(roles: seq<string>, m: Metric)
    ensures RoleSum(roles, [], m) == 0
  {
    if roles != [] {
      NoProcesses(roles[1..], m);
    }
  }

  /** Distributing the processes over roles loses nothing and counts nothing twice. */
  lemma {:induction false} RolesPartition(roles: seq<string>, processes: seq<Process>, m: Metric)
    requires forall i, j :: 0 <= i < j < |roles| ==> roles[i] != roles[j]
    requires forall p :: p in processes ==> p.role in roles
    ensures RoleSum(roles, processes, m) == Sum(processes, m)
  {
    if processes == [] {
      NoProcesses(roles, m);
    } else {
      var p, rest := processes[0], processes[1..];
      assert p in processes;
      assert processes == [p] + rest;
      RolesPartition(roles, rest, m);
      RoleSumCons(roles, p, rest, m);
    }
  }

  /** The reported totals of the roles, added up; unknown if one of them is. */
  function ReportedTotal(order: seq<string>, roles: map<string, Budget>, m: Metric): Option<nat> {
    if order == [] then Some(0)
    else
      AddReading(ReportedTotal(order[1..], roles, m),
                 if order[0] in roles && m in roles[order[0]].sums then roles[order[0]].sums[m] else None)
  }

  lemma OneReported(processes: seq<Process>, roles: map<string, Budget>, m: Metric, role: string)
    requires RolledUp(processes, roles) && role in roles && AllKnown(processes, m)
    ensures m in roles[role].sums && roles[role].sums[m] == Some(Sum(Members(processes, role), m))
  {
    hide BudgetOf, Sum;
    assert RoleOk(processes, roles, role);
    RoleTotal(Members(processes, role), m);
  }

  lemma {:induction false} ReportedIsSum(order: seq<string>, processes: seq<Process>, roles: map<string, Budget>,
          m: Metric)
    requires RolledUp(processes, roles) && (forall r :: r in order ==> r in roles) && AllKnown(processes, m)
    ensures ReportedTotal(order, roles, m) == Some(RoleSum(order, processes, m))
  {
    if order != [] {
      hide RolledUp, AllKnown, Members, Sum;
      assert order[0] in order;
      ReportedIsSum(order[1..], processes, roles, m);
      OneReported(processes, roles, m, order[0]);
    }
  }

  lemma {:induction false} AllSelected(processes: seq<Process>, p: Process -> bool)
    requires forall q :: q in processes ==> p(q)
    ensures Select(processes, p) == processes
  {
    if processes != [] {
      assert processes[0] in processes;
      AllSelected(processes[1..], p);
    }
  }

  lemma {:induction false} ReportedUnknown(order: seq<string>, roles: map<string, Budget>, m: Metric, role: string)
    requires role in order && role in roles && m in roles[role].sums && roles[role].sums[m].None?
    ensures ReportedTotal(order, roles, m).None?
  {
    if order[0] != role {
      ReportedUnknown(order[1..], roles, m, role);
    }
  }

  /** The roles that the budgets are for are those of the processes. */
  lemma RolesAreThose(processes: seq<Process>, roles: map<string, Budget>)
    requires RolledUp(processes, roles)
    ensures forall p :: p in processes ==> p.role in RolesIn(processes)
    ensures forall r :: r in RolesIn(processes) ==> r in roles
    ensures forall i, j :: 0 <= i < j < |RolesIn(processes)| ==> RolesIn(processes)[i] != RolesIn(processes)[j]
  {
    var names := seq(|processes|, i requires 0 <= i < |processes| => processes[i].role);
    UniqueMembers(names);
    forall p | p in processes ensures p.role in RolesIn(processes) {
      var i :| 0 <= i < |processes| && processes[i] == p;
      assert names[i] == p.role;
    }
    forall r | r in RolesIn(processes) ensures r in roles {
      var i :| 0 <= i < |names| && names[i] == r;
      assert processes[i] in Members(processes, r);
      assert RoleOk(processes, roles, r);
    }
  }

  /**
   Conservation for every key: the totals of the roles add up to the total of all processes, and are unknown iff one
   reading is.
   */
  lemma ReportedExactly(processes: seq<Process>, roles: map<string, Budget>, m: Metric)
    requires RolledUp(processes, roles)
    ensures ReportedTotal(RolesIn(processes), roles, m)
         == if AllKnown(processes, m) then Some(Sum(processes, m)) else None
  {
    RolesAreThose(processes, roles);
    if AllKnown(processes, m) {
      hide AllKnown, Sum, RolledUp, RolesIn, Members;
      ReportedIsSum(RolesIn(processes), processes, roles, m);
      RolesPartition(RolesIn(processes), processes, m);
    } else {
      var p :| p in processes && m !in p.values;
      assert p in Members(processes, p.role);
      assert RoleOk(processes, roles, p.role);
      RoleTotal(Members(processes, p.role), m);
      ReportedUnknown(RolesIn(processes), roles, m, p.role);
    }
  }

  /** On a valid capture the PSS totals of the roles, in bytes, are the reconciliation's process PSS. */
  lemma RolesReconcile(processes: seq<Process>, roles: map<string, Budget>)
    requires RolledUp(processes, roles) && Captured(processes) && forall p :: p in processes ==> p.full
    ensures var total := ReportedTotal(RolesIn(processes), roles, Pss);
      total.Some? && AllKnown(Select(processes, IsFull), Pss)
          && 1024 * total.value == 1024 * Sum(Select(processes, IsFull), Pss)
  {
    ReportedExactly(processes, roles, Pss);
    AllSelected(processes, IsFull);
  }
}
