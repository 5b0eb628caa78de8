/** Calibration of all domains of an organization, or of one: the grouping of tasks and
    the loop over domains in `calibrate_organization_domain_thresholds` of
    apps/tasks/uncertainty.py. */
module DomainPolicies {
  import opened Sequences
  import opened Uncertainty
  import opened Wrappers

  const VALID_TASK_DOMAINS := ["general", "code", "math", "medical", "legal", "creative", "safety"]

  datatype Scoped = Scoped(domain: string, task: Task)

  /** A domain's tasks.  A calibration of one domain selects by that column; one of all
      domains counts tasks without a domain as general. */
  function TasksOf(tasks: seq<Scoped>, domain: string, target: Option<string>): seq<Task> {
    if tasks == [] then []
    else TasksOf(tasks[..|tasks| - 1], domain, target) +
         var last := tasks[|tasks| - 1];
         if last.domain == domain || (last.domain == "" && domain == "general" && target == None)
         then [last.task] else []
  }

  /** A domain's tasks are, in order, those whose column names the domain, and also those
      without a domain if all domains are calibrated and this one is "general". */
  lemma {:induction false} TasksOfExact(tasks: seq<Scoped>, domain: string, target: Option<string>)
    returns (indices: seq<nat>)
    ensures Indices(indices, 0, |tasks|) && |indices| == |TasksOf(tasks, domain, target)|
    ensures forall i :: 0 <= i < |indices| ==> TasksOf(tasks, domain, target)[i] == tasks[indices[i]].task
    ensures forall k: nat :: k in indices <==>
              k < |tasks| &&
              (tasks[k].domain == domain || (target == None && domain == "general" && tasks[k].domain == ""))
  {
    indices := [];
    if tasks != [] {
      var n := |tasks| - 1;
      indices := TasksOfExact(tasks[..n], domain, target);
      if tasks[n].domain == domain || (tasks[n].domain == "" && domain == "general" && target == None) {
        indices := indices + [n];
      }
    }
  }

  /** Tasks of other domains do not matter: with or without one, the domain's row is the
      same. */
  lemma {:induction false} OtherDomainsDoNotMatter(
    before: seq<Scoped>, other: Scoped, after: seq<Scoped>, rows: map<string, Policy>, domain: string,
    defaultThreshold: real, minSamples: int, target: Option<string>)
    requires other.domain != domain && (target == None && domain == "general" ==> other.domain != "")
    ensures TasksOf(before + [other] + after, domain, target) == TasksOf(before + after, domain, target)
    ensures RowAfter(before + [other] + after, rows, domain, defaultThreshold, minSamples, target)
         == RowAfter(before + after, rows, domain, defaultThreshold, minSamples, target)
  {
    hide Recalibration;
    var n := |after| - 1;
    if after == [] {
      assert before + [other] + after == before + [other] && before + after == before;
      assert (before + [other])[..|before|] == before;
    } else {
      OtherDomainsDoNotMatter(before, other, after[..n], rows, domain, defaultThreshold, minSamples, target);
      assert (before + [other] + after)[..|before| + 1 + n] == before + [other] + after[..n];
      assert (before + after)[..|before| + n] == before + after[..n];
    }
  }

  /** All tasks that some domain's calibration looks at, when all domains are calibrated. */
  function Evaluated(tasks: seq<Scoped>): multiset<Task> {
    if tasks == [] then multiset{}
    else
      var last := tasks[|tasks| - 1];
      Evaluated(tasks[..|tasks| - 1])
      + if last.domain == "" || last.domain in VALID_TASK_DOMAINS then multiset{last.task} else multiset{}
  }

  function TasksOfAll(tasks: seq<Scoped>, domains: seq<string>): multiset<Task> {
    if domains == [] then multiset{}
    else multiset(TasksOf(tasks, domains[0], None)) + TasksOfAll(tasks, domains[1..])
  }

  /** The domain that a calibration of all domains counts a task in. */
  function DomainOf(task: Scoped): string {
    if task.domain == "" then "general" else task.domain
  }

  lemma {:induction false} OneMoreTask(tasks: seq<Scoped>, last: Scoped, domains: seq<string>)
    requires Distinct(domains) && "" !in domains
    ensures TasksOfAll(tasks + [last], domains)
         == TasksOfAll(tasks, domains) + if DomainOf(last) in domains then multiset{last.task} else multiset{}
  {
    hide TasksOf;
    if domains != [] {
      var domain, rest := domains[0], domains[1..];
      assert domains == [domain] + rest && domain !in rest && "" !in rest;
      OneMoreTask(tasks, last, rest);
      TasksOfNext(tasks, last, domain);
    }
  }

  lemma TasksOfNext(tasks: seq<Scoped>, last: Scoped, domain: string)
    requires domain != ""
    ensures TasksOf(tasks + [last], domain, None)
         == TasksOf(tasks, domain, None) + if DomainOf(last) == domain then [last.task] else []
  {
    assert (tasks + [last])[..|tasks|] == tasks;
  }

  lemma {:induction false} NoTasks(domains: seq<string>)
    ensures TasksOfAll([], domains) == multiset{}
  {
    if domains != [] {
      NoTasks(domains[1..]);
    }
  }

  /** When all domains are calibrated, they divide the tasks among them: each task without a
      domain, or with a valid one, is counted in exactly one of them, and no other is. */
  lemma {:induction false} DomainsPartition(tasks: seq<Scoped>)
    ensures TasksOfAll(tasks, VALID_TASK_DOMAINS) == Evaluated(tasks)
  {
    hide TasksOfAll;
    if tasks == [] {
      NoTasks(VALID_TASK_DOMAINS);
    } else {
      var n := |tasks| - 1;
      DomainsPartition(tasks[..n]);
      assert tasks == tasks[..n] + [tasks[n]];
      OneMoreTask(tasks[..n], tasks[n], VALID_TASK_DOMAINS);
    }
  }

  predicate Counts(item: Scoped, domain: string, target: Option<string>) {
    (target == None || item.domain == target.value) && DomainOf(item) == domain
  }

  lemma GroupedNext(tasks: seq<Scoped>, i: nat, domain: string, target: Option<string>)
    requires i < |tasks| && domain in Scanned(target)
    ensures TasksOf(tasks[..i + 1], domain, target)
         == TasksOf(tasks[..i], domain, target) + if Counts(tasks[i], domain, target) then [tasks[i].task] else []
  {
    assert tasks[..i + 1][..i] == tasks[..i];
  }

  lemma NothingGrouped(tasks: seq<Scoped>, target: Option<string>)
    ensures forall domain :: TasksOf(tasks[..0], domain, target) == []
  {
  }

  /** The loop that sorts an organization's tasks into the domains to be scanned. */
  method GroupByDomain(tasks: seq<Scoped>, domains: seq<string>, target: Option<string>)
    returns (byDomain: map<string, seq<Task>>)
    requires domains == Scanned(target)
    ensures byDomain.Keys == set d | d in domains
    ensures forall d :: d in domains ==> byDomain[d] == TasksOf(tasks, d, target)
  {
    hide TasksOf, Scanned;
    byDomain := map d | d in domains :: [];
    NothingGrouped(tasks, target);
    for i := 0 to |tasks|
      invariant byDomain.Keys == set d | d in domains
      invariant forall d :: d in domains ==> byDomain[d] == TasksOf(tasks[..i], d, target)
    {
      var item := tasks[i];
      forall d | d in domains
        ensures TasksOf(tasks[..i + 1], d, target)
             == TasksOf(tasks[..i], d, target) + if Counts(item, d, target) then [item.task] else []
      {
        GroupedNext(tasks, i, d, target);
      }
      if target == None || item.domain == target.value {
        var domain := if item.domain == "" then "general" else item.domain;
        if domain in byDomain {
          byDomain := byDomain[domain := byDomain[domain] + [item.task]];
        }
      }
    }
    assert tasks[..|tasks|] == tasks;
  }

  /** The domains that a calibration of all domains, or of one, goes through. */
  function Scanned(target: Option<string>): seq<string> {
    if target.None? then VALID_TASK_DOMAINS
    else if target.value in VALID_TASK_DOMAINS then [target.value]
    else []
  }

  function RowOf(rows: map<string, Policy>, domain: string): Option<Policy> {
    if domain in rows then Some(rows[domain]) else None
  }

  /** What a scanned domain's row becomes. */
  function RowAfter(
    tasks: seq<Scoped>, rows: map<string, Policy>, domain: string, defaultThreshold: real, minSamples: int,
    target: Option<string>): Option<Policy>
  {
    Recalibration(TasksOf(tasks, domain, target), RowOf(rows, domain), defaultThreshold, minSamples)
  }

  /** An organization's policies, by domain. */
  class PolicyTable {
    var rows: map<string, Policy>

    /** Each scanned domain gets the policy that its own tasks and its own old row
        call for, nothing else changes, and exactly the domains that moved are reported,
        once each. */
    method CalibrateOrganization(tasks: seq<Scoped>, defaultThreshold: real, minSamples: int, target: Option<string>)
      returns (adjusted: seq<string>)
      modifies this
      ensures forall domain ::
                RowOf(rows, domain) ==
                  if domain in VALID_TASK_DOMAINS && (target == None || target == Some(domain))
                  then RowAfter(tasks, old(rows), domain, defaultThreshold, minSamples, target)
                  else RowOf(old(rows), domain)
      ensures Distinct(adjusted)
      ensures forall domain :: domain in adjusted <==>
                && domain in VALID_TASK_DOMAINS && (target == None || target == Some(domain))
                && Moved(RowOf(old(rows), domain), RowOf(rows, domain), defaultThreshold)
    {
      hide Recalibration, TasksOf, Scanned, Moved;
      adjusted := [];
      var domains := Scanned(target);
      ScannedExact(target);
      var byDomain := GroupByDomain(tasks, domains, target);
      for i := 0 to |domains|
        invariant forall j :: 0 <= j < i ==>
                    RowOf(rows, domains[j]) ==
                    RowAfter(tasks, old(rows), domains[j], defaultThreshold, minSamples, target)
        invariant forall domain :: domain !in domains[..i] ==> RowOf(rows, domain) == RowOf(old(rows), domain)
        invariant Distinct(adjusted)
        invariant forall domain :: domain in adjusted <==>
                    domain in domains[..i] && Moved(RowOf(old(rows), domain), RowOf(rows, domain), defaultThreshold)
      {
        var domain := domains[i];
        assert domain !in domains[..i] && domains[..i + 1] == domains[..i] + [domain];
        var existing := RowOf(rows, domain);
        var policy, moved := CalibrateDomain(byDomain[domain], existing, defaultThreshold, minSamples);
        if policy.Some? {
          rows := rows[domain := policy.value];
          if moved {
            adjusted := adjusted + [domain];
          }
        } else {
          NothingToEvaluate(TasksOf(tasks, domain, target), existing, defaultThreshold, minSamples);
        }
      }
      assert domains[..|domains|] == domains;
    }
  }

  lemma ScannedExact(target: Option<string>)
    ensures Distinct(Scanned(target))
    ensures forall domain :: domain in Scanned(target) <==>
              domain in VALID_TASK_DOMAINS && (target == None || target == Some(domain))
  {
  }

  lemma NothingToEvaluate(tasks: seq<Task>, existing: Option<Policy>, defaultThreshold: real, minSamples: int)
    requires Recalibration(tasks, existing, defaultThreshold, minSamples) == None
    ensures existing == None && !Moved(existing, None, defaultThreshold)
  {
  }
}
