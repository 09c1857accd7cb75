/** Choosing log streams and printing their events, page by page and up to a limit. */
module LogPrinter {
  import opened Wrappers

  function Flatten<T>(pages: seq<seq<T>>): seq<T> {
    if pages == [] then [] else pages[0] + Flatten(pages[1..])
  }

  /** The first n elements, or all of them if n is not positive. */
  function UpTo<T>(s: seq<T>, n: int): seq<T> {
    if 0 < n < |s| then s[..n] else s
  }

  lemma {:induction false} FlattenJoin<T>(a: seq<seq<T>>, b: seq<seq<T>>)
    ensures Flatten(a + b) == Flatten(a) + Flatten(b)
  {
    if a == [] {
      assert a + b == b;
    } else {
      assert (a + b)[1..] == a[1..] + b;
      FlattenJoin(a[1..], b);
    }
  }

  predicate HasPrefix(s: string, prefix: string) {
    prefix <= s
  }

  /** The names with the prefix, without it: these are the task identifiers. */
  function Matching(names: seq<string>, prefix: string): seq<string> {
    if names == [] then []
    else
      var before := Matching(names[..|names| - 1], prefix);
      var name := names[|names| - 1];
      if HasPrefix(name, prefix) then before + [name[|prefix|..]] else before
  }

  /** The matching streams are those at the positions ks: exactly the names that begin with the prefix, in order,
      each without it. */
  ghost predicate MatchAt(names: seq<string>, prefix: string, ks: seq<nat>, ids: seq<string>) {
    && |ids| == |ks|
    && (forall a :: 0 <= a < |ks| ==> ks[a] < |names| && names[ks[a]] == prefix + ids[a])
    && (forall a, b :: 0 <= a < b < |ks| ==> ks[a] < ks[b])
    && (forall k: nat, id: string :: k < |names| && names[k] == prefix + id ==> k in ks)
  }

  lemma OneMoreName(names: seq<string>, name: string, prefix: string, ks: seq<nat>, ids: seq<string>)
    requires MatchAt(names, prefix, ks, ids)
    ensures if prefix <= name then MatchAt(names + [name], prefix, ks + [|names|], ids + [name[|prefix|..]])
            else MatchAt(names + [name], prefix, ks, ids)
  {
    assert prefix <= name ==> name == prefix + name[|prefix|..];
    forall k: nat, id: string | k < |names + [name]| && (names + [name])[k] == prefix + id
      ensures k in ks || (k == |names| && prefix <= name)
    {
      assert k < |names| ==> names[k] == prefix + id;
      assert prefix <= prefix + id;
    }
  }

  lemma {:induction false} MatchingPositions(names: seq<string>, prefix: string) returns (ks: seq<nat>)
    ensures MatchAt(names, prefix, ks, Matching(names, prefix))
  {
    ks := [];
    if names != [] {
      hide MatchAt;
      var n := |names| - 1;
      var before := MatchingPositions(names[..n], prefix);
      OneMoreName(names[..n], names[n], prefix, before, Matching(names[..n], prefix));
      assert names == names[..n] + [names[n]];
      ks := if prefix <= names[n] then before + [n] else before;
    }
  }

  lemma {:induction false} MatchingJoin(a: seq<string>, b: seq<string>, prefix: string)
    ensures Matching(a + b, prefix) == Matching(a, prefix) + Matching(b, prefix)
  {
    if b == [] {
      assert a + b == a;
    } else {
      assert (a + b)[..|a + b| - 1] == a + b[..|b| - 1];
      MatchingJoin(a, b[..|b| - 1], prefix);
    }
  }

  /** Adds the matching streams of one page and stops at the maximum. */
  method SelectFromPage(page: seq<string>, prefix: string, maxTasks: int, taskIds: seq<string>) returns (now: seq<string>)
    requires maxTasks > 0 ==> |taskIds| < maxTasks
    ensures now == UpTo(taskIds + Matching(page, prefix), maxTasks)
  {
    now := taskIds;
    for k := 0 to |page|
      invariant now == taskIds + Matching(page[..k], prefix) && (maxTasks > 0 ==> |now| < maxTasks)
    {
      assert page[..k + 1][..k] == page[..k];
      if HasPrefix(page[k], prefix) {
        now := now + [page[k][|prefix|..]];
        if maxTasks > 0 && |now| == maxTasks {
          MatchingJoin(page[..k + 1], page[k + 1..], prefix);
          assert page == page[..k + 1] + page[k + 1..];
          assert now == (taskIds + Matching(page, prefix))[..maxTasks];
          return;
        }
      }
    }
    assert page[..|page|] == page;
  }

  /** The job list when tasks of every status are asked for: exactly the first maxTasks matching streams,
      however the service splits its answer into pages. */
  method SelectStreams(pages: seq<seq<string>>, prefix: string, maxTasks: int) returns (taskIds: seq<string>)
    ensures taskIds == UpTo(Matching(Flatten(pages), prefix), maxTasks)
    ensures taskIds <= Matching(Flatten(pages), prefix) && (maxTasks > 0 ==> |taskIds| <= maxTasks)
    ensures (maxTasks > 0 && |taskIds| == maxTasks) || taskIds == Matching(Flatten(pages), prefix)
  {
    taskIds := [];
    assert pages[0..] == pages;
    for p := 0 to |pages|
      invariant taskIds + Matching(Flatten(pages[p..]), prefix) == Matching(Flatten(pages), prefix)
      invariant maxTasks > 0 ==> |taskIds| < maxTasks
    {
      assert pages[p..][1..] == pages[p + 1..];
      ghost var later, before := Matching(Flatten(pages[p + 1..]), prefix), taskIds;
      MatchingJoin(pages[p], Flatten(pages[p + 1..]), prefix);
      taskIds := SelectFromPage(pages[p], prefix, maxTasks, taskIds);
      assert before + (Matching(pages[p], prefix) + later) == before + Matching(pages[p], prefix) + later;
      if maxTasks > 0 && |taskIds| == maxTasks {
        return;
      }
    }
    assert pages[|pages|..] == [];
  }

  /** One job: how the service will page the events of its stream, and the page size asked for (-1: none). */
  datatype Job = Job(pages: seq<seq<string>>, pageLimit: int)

  /** The service's answer to one request, given the pages it still has to deliver: a page longer than the
      requested limit is cut there and the remainder stays for the next request. */
  datatype Answer = Answer(events: seq<string>, remaining: seq<seq<string>>)

  function Answered(remaining: seq<seq<string>>, limit: Option<int>): (r: Answer)
    requires limit.Some? ==> limit.value >= 1
    ensures r.events + Flatten(r.remaining) == Flatten(remaining)
    ensures remaining != [] ==>
      || |r.remaining| < |remaining|
      || (|r.remaining| == |remaining| && |Flatten(r.remaining)| < |Flatten(remaining)|)
  {
    if remaining == [] then Answer([], [])
    else
      var page, rest := remaining[0], remaining[1..];
      if limit.Some? && limit.value < |page| then
        var cut := [page[limit.value..]] + rest;
        assert cut[1..] == rest;
        assert page == page[..limit.value] + page[limit.value..];
        Answer(page[..limit.value], cut)
      else Answer(page, rest)
  }

  function Events(jobs: seq<Job>): seq<string> {
    if jobs == [] then [] else Flatten(jobs[0].pages) + Events(jobs[1..])
  }

  /** The limit of one request never drops to zero. */
  function PageLimit(job: Job, limit: int, count: nat): (r: Option<int>)
    requires (job.pageLimit == -1 || job.pageLimit > 0) && (limit > 0 ==> count < limit)
    ensures r.Some? ==> 1 <= r.value <= job.pageLimit && (limit > 0 ==> r.value <= limit - count)
    ensures r.Some? <==> job.pageLimit > 0
  {
    if job.pageLimit >= 0 then
      if limit > 0 && limit - count < job.pageLimit then Some(limit - count) else Some(job.pageLimit)
    else None
  }

  /** Prints the events of one answer and stops at the limit. */
  method PrintPage(events: seq<string>, limit: int, printed: seq<string>) returns (now: seq<string>)
    requires limit > 0 ==> |printed| < limit
    ensures now == UpTo(printed + events, limit)
  {
    now := printed;
    for k := 0 to |events|
      invariant now == printed + events[..k] && (limit > 0 ==> |now| < limit)
    {
      now := now + [events[k]];
      if limit > 0 && |now| == limit {
        assert now == (printed + events)[..limit];
        return;
      }
    }
    assert events[..|events|] == events;
  }

  /** Prints one stream after what has been printed already. */
  method PrintJob(job: Job, limit: int, printed: seq<string>) returns (now: seq<string>)
    requires job.pageLimit == -1 || job.pageLimit > 0
    requires limit > 0 ==> |printed| < limit
    ensures now == UpTo(printed + Flatten(job.pages), limit)
  {
    var remaining := job.pages;
    now := printed;
    while true
      invariant limit > 0 ==> |now| < limit
      invariant now + Flatten(remaining) == printed + Flatten(job.pages)
      decreases |remaining|, |Flatten(remaining)|
    {
      var answer := Answered(remaining, PageLimit(job, limit, |now|));
      assert now + (answer.events + Flatten(answer.remaining)) == now + answer.events + Flatten(answer.remaining);
      now := PrintPage(answer.events, limit, now);
      // No token: there are no more events.
      if answer.remaining == [] {
        return;
      }
      if limit > 0 && |now| == limit {
        return;
      }
      remaining := answer.remaining;
    }
  }

  lemma EventsUnfold(jobs: seq<Job>, k: nat, before: seq<string>)
    requires k < |jobs|
    ensures before + Events(jobs[k..]) == before + Flatten(jobs[k].pages) + Events(jobs[k + 1..])
  {
    assert jobs[k..][1..] == jobs[k + 1..];
  }

  lemma NoEvents(jobs: seq<Job>)
    ensures Events(jobs[|jobs|..]) == []
  {
  }

  lemma PrefixReached(now: seq<string>, all: seq<string>, more: seq<string>, limit: int)
    requires limit > 0 && |now| == limit && now == UpTo(all, limit)
    ensures now == UpTo(all + more, limit)
  {
  }

  /** With a positive limit exactly the first events of all streams are printed, in order; without one, all
      of them; however the service splits the pages. */
  method ShowLogs(jobs: seq<Job>, limit: int) returns (printed: seq<string>)
    requires forall k :: 0 <= k < |jobs| ==> jobs[k].pageLimit == -1 || jobs[k].pageLimit > 0
    ensures printed == UpTo(Events(jobs), limit)
    ensures printed <= Events(jobs) && (limit > 0 ==> |printed| <= limit)
    ensures (limit > 0 && |printed| == limit) || printed == Events(jobs)
  {
    hide Events, Flatten;
    printed := [];
    for k := 0 to |jobs|
      invariant limit > 0 ==> |printed| < limit
      invariant printed + Events(jobs[k..]) == Events(jobs)
    {
      EventsUnfold(jobs, k, printed);
      ghost var all := printed + Flatten(jobs[k].pages);
      printed := PrintJob(jobs[k], limit, printed);
      if limit > 0 && |printed| == limit {
        PrefixReached(printed, all, Events(jobs[k + 1..]), limit);
        return;
      }
    }
    NoEvents(jobs);
  }
}
