/** The service's job registry, a JavaScript `Map` from download id to job
    record. A `Map` iterates in insertion order and `set` on a key it already
    holds keeps that key's position, so the registry is modelled as the
    sequence of its entries in iteration order. */
module Registry {
  import opened Wrappers
  import opened SharedTypes

  /** MAX_DOWNLOADS_HISTORY */
  const MaxDownloadsHistory: nat := 10

  datatype Entry = Entry(id: string, job: DownloadProgress)

  function Ids(es: seq<Entry>): (ids: seq<string>)
    ensures |ids| == |es| && forall k :: 0 <= k < |es| ==> ids[k] == es[k].id
  {
    seq(|es|, k requires 0 <= k < |es| => es[k].id)
  }

  /** A `Map` never holds a key twice. */
  predicate UniqueIds(es: seq<Entry>) {
    forall i, j :: 0 <= i < j < |es| ==> es[i].id != es[j].id
  }

  function IndexOf(es: seq<Entry>, id: string): (r: Option<nat>)
    ensures r.Some? ==> r.value < |es| && es[r.value].id == id
    ensures r.None? <==> id !in Ids(es)
  {
    if es == [] then None
    else if es[|es| - 1].id == id && IndexOf(es[..|es| - 1], id).None? then Some(|es| - 1)
    else
      match IndexOf(es[..|es| - 1], id)
      case None => None
      case Some(i) => Some(i)
  }

  /** `map.get(id)`. */
  function Get(es: seq<Entry>, id: string): (r: Option<DownloadProgress>)
    ensures r.Some? <==> id in Ids(es)
    ensures UniqueIds(es) ==> forall k :: 0 <= k < |es| && es[k].id == id ==> r == Some(es[k].job)
  {
    match IndexOf(es, id)
    case None => None
    case Some(i) => Some(es[i].job)
  }

  /** `map.set(id, job)`: replaces the entry in place when the key is present,
      and otherwise appends a new last entry. */
  function Set(es: seq<Entry>, id: string, job: DownloadProgress): (r: seq<Entry>)
    ensures id !in Ids(es) ==> r == es + [Entry(id, job)]
    ensures id in Ids(es) ==> Ids(r) == Ids(es)
    ensures UniqueIds(es) && id in Ids(es) ==>
      forall k :: 0 <= k < |es| ==> r[k] == if es[k].id == id then Entry(id, job) else es[k]
    ensures UniqueIds(es) ==> UniqueIds(r)
    ensures UniqueIds(es) ==> Get(r, id) == Some(job)
    ensures UniqueIds(es) ==> forall other :: other != id ==> Get(r, other) == Get(es, other)
  {
    match IndexOf(es, id)
    case None =>
      assert Ids(es + [Entry(id, job)]) == Ids(es) + [id];
      es + [Entry(id, job)]
    case Some(i) =>
      assert Ids(es[i := Entry(id, job)]) == Ids(es);
      es[i := Entry(id, job)]
  }

  /** `map.delete(id)`: the other entries keep their order. */
  function Remove(es: seq<Entry>, id: string): (r: seq<Entry>)
    ensures forall e :: e in r <==> e in es && e.id != id
    ensures id !in Ids(r)
    ensures id !in Ids(es) ==> r == es
    ensures |r| <= |es|
  {
    if es == [] then []
    else (if es[0].id == id then [] else [es[0]]) + Remove(es[1..], id)
  }

  /** Deleting a key keeps the map's shape and every other key's record. */
  lemma RemoveSpec(es: seq<Entry>, id: string)
    requires UniqueIds(es)
    ensures UniqueIds(Remove(es, id))
    ensures Get(Remove(es, id), id) == None
    ensures forall other :: other != id ==> Get(Remove(es, id), other) == Get(es, other)
  {
    RemoveUnique(es, id);
    forall other | other != id
      ensures Get(Remove(es, id), other) == Get(es, other)
    {
      RemoveKeepsOther(es, id, other);
    }
  }

  /** Deleting a key drops exactly its entry and keeps the order of the rest. */
  lemma {:induction false} RemoveAt(es: seq<Entry>, id: string, k: nat)
    requires UniqueIds(es) && k < |es| && es[k].id == id
    ensures Remove(es, id) == es[..k] + es[k + 1..]
  {
    var tail := es[1..];
    if k == 0 {
      assert forall m :: 0 <= m < |tail| ==> tail[m].id == es[m + 1].id;
      assert id !in Ids(tail);
      assert Remove(es, id) == [] + Remove(tail, id);
    } else {
      assert es[0].id != id;
      assert UniqueIds(tail) by {
        forall i, j | 0 <= i < j < |tail|
          ensures tail[i].id != tail[j].id
        {
          assert tail[i] == es[i + 1] && tail[j] == es[j + 1];
        }
      }
      assert tail[k - 1] == es[k];
      RemoveAt(tail, id, k - 1);
      assert Remove(es, id) == [es[0]] + Remove(tail, id);
      DropAfterHead(es, k);
    }
  }

  lemma DropAfterHead<T>(es: seq<T>, k: nat)
    requires 0 < k < |es|
    ensures [es[0]] + (es[1..][..k - 1] + es[1..][k..]) == es[..k] + es[k + 1..]
  {
    assert [es[0]] + es[1..][..k - 1] == es[..k];
    assert es[1..][k..] == es[k + 1..];
  }

  lemma RemoveKeepsOther(es: seq<Entry>, id: string, other: string)
    requires UniqueIds(es) && UniqueIds(Remove(es, id)) && other != id
    ensures Get(Remove(es, id), other) == Get(es, other)
  {
    var r := Remove(es, id);
    if other in Ids(es) {
      var k :| 0 <= k < |es| && Ids(es)[k] == other;
      assert es[k] in r;
      var j :| 0 <= j < |r| && r[j] == es[k];
      assert Ids(r)[j] == other;
    } else {
      RemoveIds(es, id, other);
    }
  }

  lemma RemoveIds(es: seq<Entry>, id: string, x: string)
    requires x !in Ids(es)
    ensures x !in Ids(Remove(es, id))
  {
    var r := Remove(es, id);
    forall j | 0 <= j < |r| ensures Ids(r)[j] != x {
      assert r[j] in es;
    }
  }

  lemma {:induction false} RemoveUnique(es: seq<Entry>, id: string)
    requires UniqueIds(es)
    ensures UniqueIds(Remove(es, id))
  {
    if es != [] {
      assert UniqueIds(es[1..]);
      RemoveUnique(es[1..], id);
      var rest := Remove(es[1..], id);
      if es[0].id != id {
        forall j | 0 <= j < |rest| ensures rest[j].id != es[0].id {
          assert rest[j] in es[1..];
        }
        assert Remove(es, id) == [es[0]] + rest;
      } else {
        assert Remove(es, id) == rest;
      }
    }
  }

  /** `updateDownloadProgress(id, patch)`: merges the patch into the entry for
      `id` in place, and leaves the registry alone when `id` is absent. */
  function Update(es: seq<Entry>, id: string, patch: Patch): (r: seq<Entry>)
    ensures Ids(r) == Ids(es)
    ensures id !in Ids(es) ==> r == es
  {
    match Get(es, id)
    case None => es
    case Some(cur) => Set(es, id, Merge(cur, patch))
  }

  lemma UpdateSpec(es: seq<Entry>, id: string, patch: Patch)
    requires UniqueIds(es)
    ensures UniqueIds(Update(es, id, patch))
    ensures Ids(Update(es, id, patch)) == Ids(es)
    ensures forall k :: 0 <= k < |es| ==>
      Update(es, id, patch)[k] == if es[k].id == id then Entry(id, Merge(es[k].job, patch)) else es[k]
    ensures id !in Ids(es) ==> Update(es, id, patch) == es
  {
    if id in Ids(es) {
      var k :| 0 <= k < |es| && es[k].id == id;
      assert Get(es, id) == Some(es[k].job);
    }
  }

  /** `updateDownloadProgress` applied once per patch, in order. */
  function UpdateAll(es: seq<Entry>, id: string, patches: seq<Patch>): seq<Entry>
    decreases |patches|
  {
    if patches == [] then es else UpdateAll(Update(es, id, patches[0]), id, patches[1..])
  }

  lemma {:induction false} UpdateAllSpec(es: seq<Entry>, id: string, patches: seq<Patch>)
    requires UniqueIds(es)
    ensures UniqueIds(UpdateAll(es, id, patches))
    ensures Ids(UpdateAll(es, id, patches)) == Ids(es)
    ensures forall k :: 0 <= k < |es| && es[k].id != id ==> UpdateAll(es, id, patches)[k] == es[k]
    decreases |patches|
  {
    if patches != [] {
      UpdateSpec(es, id, patches[0]);
      UpdateAllSpec(Update(es, id, patches[0]), id, patches[1..]);
    }
  }

  /** Applying one more patch at the end is one more update. */
  lemma {:induction false} UpdateAllSnoc(es: seq<Entry>, id: string, patches: seq<Patch>, p: Patch)
    ensures UpdateAll(es, id, patches + [p]) == Update(UpdateAll(es, id, patches), id, p)
    decreases |patches|
  {
    if patches == [] {
      assert [] + [p] == [p];
    } else {
      assert (patches + [p])[1..] == patches[1..] + [p];
      UpdateAllSnoc(Update(es, id, patches[0]), id, patches[1..], p);
    }
  }

  lemma {:induction false} UpdateAllAppend(es: seq<Entry>, id: string, ps: seq<Patch>, qs: seq<Patch>)
    ensures UpdateAll(es, id, ps + qs) == UpdateAll(UpdateAll(es, id, ps), id, qs)
    decreases |ps|
  {
    if ps == [] {
      assert [] + qs == qs;
    } else {
      assert (ps + qs)[1..] == ps[1..] + qs;
      UpdateAllAppend(Update(es, id, ps[0]), id, ps[1..], qs);
    }
  }

  /** Setting a key the registry does not hold appends the entry. */
  lemma SetFresh(es: seq<Entry>, e: Entry)
    requires e.id !in Ids(es)
    ensures Set(es, e.id, e.job) == es + [e]
  {
  }

  /** In a registry without repeated keys, no key occurs before its entry. */
  lemma FreshInPrefix(es: seq<Entry>, i: nat)
    requires UniqueIds(es) && i < |es|
    ensures es[i].id !in Ids(es[..i])
  {
    forall k | 0 <= k < i ensures Ids(es[..i])[k] != es[i].id {
      assert Ids(es[..i])[k] == es[k].id;
    }
  }

  predicate IsTerminal(job: DownloadProgress) {
    job.status == Completed || job.status == Error
  }

  /** Number of entries with the given status. */
  function CountStatus(es: seq<Entry>, st: Status): (n: nat)
    ensures n <= |es|
  {
    if es == [] then 0 else (if es[0].job.status == st then 1 else 0) + CountStatus(es[1..], st)
  }

  lemma {:induction false} CountStatusAppend(es: seq<Entry>, e: Entry, st: Status)
    ensures CountStatus(es + [e], st) == CountStatus(es, st) + (if e.job.status == st then 1 else 0)
    decreases |es|
  {
    if es != [] {
      assert (es + [e])[1..] == es[1..] + [e];
      CountStatusAppend(es[1..], e, st);
    }
  }

  lemma {:induction false} CountStatusReplace(es: seq<Entry>, i: nat, e: Entry, st: Status)
    requires i < |es|
    ensures CountStatus(es[i := e], st) + (if es[i].job.status == st then 1 else 0)
         == CountStatus(es, st) + (if e.job.status == st then 1 else 0)
    decreases |es|
  {
    if i > 0 {
      assert es[i := e][1..] == es[1..][i - 1 := e];
      CountStatusReplace(es[1..], i - 1, e, st);
    } else {
      assert es[i := e][1..] == es[1..];
    }
  }

  /** How `set` moves the count of a status: the replaced record, if any,
      leaves the count and the new one joins it. */
  lemma CountStatusAfterSet(es: seq<Entry>, id: string, job: DownloadProgress, st: Status)
    requires UniqueIds(es)
    ensures CountStatus(Set(es, id, job), st) + (if Get(es, id).Some? && Get(es, id).value.status == st then 1 else 0)
         == CountStatus(es, st) + (if job.status == st then 1 else 0)
  {
    match IndexOf(es, id)
    case None =>
      CountStatusAppend(es, Entry(id, job), st);
    case Some(i) =>
      assert Set(es, id, job) == es[i := Entry(id, job)];
      assert Get(es, id) == Some(es[i].job);
      CountStatusReplace(es, i, Entry(id, job), st);
  }

  /** `entries.filter(([_, p]) => p.status !== 'completed' && p.status !== 'error')` */
  function KeepNonTerminal(es: seq<Entry>): (r: seq<Entry>)
    ensures |r| <= |es|
    ensures forall k :: 0 <= k < |r| ==> !IsTerminal(r[k].job)
    ensures forall e :: e in r <==> e in es && !IsTerminal(e.job)
  {
    if es == [] then []
    else (if IsTerminal(es[0].job) then [] else [es[0]]) + KeepNonTerminal(es[1..])
  }

  /** `xs.slice(-n)` for n > 0. */
  function LastN<T>(xs: seq<T>, n: nat): (r: seq<T>)
    ensures |r| == if |xs| < n then |xs| else n
    ensures r == xs[|xs| - |r|..]
  {
    if |xs| <= n then xs else xs[|xs| - n..]
  }

  /** `cleanupOldDownloads`: once there are more than ten entries, drop every
      completed or failed job and keep only the last ten of the others. */
  function Sweep(es: seq<Entry>): (r: seq<Entry>)
    ensures |r| <= |es|
    ensures |es| > MaxDownloadsHistory ==> |r| <= MaxDownloadsHistory && forall k :: 0 <= k < |r| ==> !IsTerminal(r[k].job)
  {
    if |es| <= MaxDownloadsHistory then es
    else LastN(KeepNonTerminal(es), MaxDownloadsHistory)
  }

  /** An independent description of which entries survive a sweep: each
      non-terminal entry followed by fewer than ten non-terminal entries,
      in the original order. */
  function Survivors(es: seq<Entry>): seq<Entry> {
    if es == [] then []
    else
      (if !IsTerminal(es[0].job) && |KeepNonTerminal(es[1..])| < MaxDownloadsHistory then [es[0]] else [])
      + Survivors(es[1..])
  }

  lemma {:induction false} LastNonTerminalAreSurvivors(es: seq<Entry>)
    ensures LastN(KeepNonTerminal(es), MaxDownloadsHistory) == Survivors(es)
  {
    if es != [] {
      LastNonTerminalAreSurvivors(es[1..]);
      var rest := KeepNonTerminal(es[1..]);
      if !IsTerminal(es[0].job) {
        assert KeepNonTerminal(es) == [es[0]] + rest;
        if |rest| >= MaxDownloadsHistory {
          assert ([es[0]] + rest)[|rest| + 1 - MaxDownloadsHistory..] == rest[|rest| - MaxDownloadsHistory..];
        }
      } else {
        assert KeepNonTerminal(es) == rest;
      }
    }
  }

  lemma {:induction false} SurvivorsSubset(es: seq<Entry>)
    ensures forall e :: e in Survivors(es) ==> e in es && !IsTerminal(e.job)
  {
    if es != [] {
      SurvivorsSubset(es[1..]);
      var head := if !IsTerminal(es[0].job) && |KeepNonTerminal(es[1..])| < MaxDownloadsHistory then [es[0]] else [];
      assert Survivors(es) == head + Survivors(es[1..]);
    }
  }

  lemma {:induction false} SurvivorsUnique(es: seq<Entry>)
    requires UniqueIds(es)
    ensures UniqueIds(Survivors(es))
  {
    if es != [] {
      assert UniqueIds(es[1..]);
      SurvivorsUnique(es[1..]);
      SurvivorsSubset(es[1..]);
      var head := if !IsTerminal(es[0].job) && |KeepNonTerminal(es[1..])| < MaxDownloadsHistory then [es[0]] else [];
      var tail := Survivors(es[1..]);
      assert Survivors(es) == head + tail;
      if head != [] {
        forall j | 0 <= j < |tail| ensures tail[j].id != es[0].id {
          assert tail[j] in es[1..];
        }
      }
    }
  }

  /** The sweep, as the source promises it: ten or fewer entries are left
      untouched; beyond that exactly the non-terminal entries with fewer than
      ten non-terminal entries after them survive, in their original order,
      which leaves at most ten. */
  lemma SweepSpec(es: seq<Entry>)
    ensures |es| <= MaxDownloadsHistory ==> Sweep(es) == es
    ensures |es| > MaxDownloadsHistory ==> Sweep(es) == Survivors(es)
    ensures |es| > MaxDownloadsHistory ==> |Sweep(es)| <= MaxDownloadsHistory
    ensures |es| > MaxDownloadsHistory ==> forall e :: e in Sweep(es) ==> e in es && !IsTerminal(e.job)
    ensures UniqueIds(es) ==> UniqueIds(Sweep(es))
  {
    LastNonTerminalAreSurvivors(es);
    SurvivorsSubset(es);
    if UniqueIds(es) {
      SurvivorsUnique(es);
    }
  }

  /** The sweep does not spare jobs still in progress: eleven downloading
      entries lose the oldest. */
  lemma SweepCanEvictInProgress(es: seq<Entry>)
    requires |es| == 11 && forall k :: 0 <= k < |es| ==> es[k].job.status == Downloading
    ensures |Sweep(es)| == 10 && Sweep(es) == es[1..]
  {
    assert KeepNonTerminal(es) == es by {
      NonTerminalKept(es);
    }
  }

  lemma {:induction false} NonTerminalKept(es: seq<Entry>)
    requires forall k :: 0 <= k < |es| ==> !IsTerminal(es[k].job)
    ensures KeepNonTerminal(es) == es
  {
    if es != [] {
      NonTerminalKept(es[1..]);
    }
  }
}
