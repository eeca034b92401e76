/** The statement-import page: a list of uploaded files, each driven by two
    timers through uploading → processing → completed | error, plus removal,
    the preview selection, the summary statistics and the status labels.
    Each `setTimeout` callback becomes a pending timer that may fire in any
    order; the random id of a new file and the random draws of the
    completion callback are parameters. */
module ImportPage {
  import opened Numbers
  import opened Collections

  datatype Status = Uploading | Processing | Completed | Error

  datatype ImportedFile = ImportedFile(
    id: string, name: string, size: int, mime: string, status: Status, uploadedAt: int,
    transactionsCount: Option<int>, totalAmount: Option<real>, errorMessage: Option<string>)

  /** A browser File handed to handleFiles. */
  datatype Upload = Upload(name: string, size: int, mime: string)

  /** A scheduled callback: the 1 s one that starts processing, or the 2 s
      one (scheduled by the first) that finishes it. */
  datatype Timer = ProcessingTimer(fileId: string) | CompletionTimer(fileId: string)

  datatype Page = Page(files: seq<ImportedFile>, timers: seq<Timer>, selected: Option<ImportedFile>, showPreview: bool)

  /** The three `Math.random()` results the completion callback reads. */
  datatype Draws = Draws(outcome: real, count: real, amount: real)

  predicate ValidDraws(d: Draws)
  {
    0.0 <= d.outcome < 1.0 && 0.0 <= d.count < 1.0 && 0.0 <= d.amount < 1.0
  }

  const ErrorMessage: string := "Formato de arquivo não suportado ou arquivo corrompido"

  function FileIds(files: seq<ImportedFile>): (r: seq<string>)
    ensures |r| == |files|
    ensures forall i :: 0 <= i < |files| ==> r[i] == files[i].id
  {
    seq(|files|, i requires 0 <= i < |files| => files[i].id)
  }

  function TimerIds(ts: seq<Timer>): (r: seq<string>)
    ensures |r| == |ts|
    ensures forall i :: 0 <= i < |ts| ==> r[i] == ts[i].fileId
  {
    seq(|ts|, i requires 0 <= i < |ts| => ts[i].fileId)
  }

  // ---------------------------------------------------------------------
  // Transitions

  /** handleFiles: one uploading file per selected file, appended after the
      existing ones in selection order, each with its processing timer.
      `nows[i]` is the clock reading taken for the i-th file. */
  function HandleFiles(p: Page, uploads: seq<Upload>, ids: seq<string>, nows: seq<int>): (q: Page)
    requires |ids| == |uploads| && |nows| == |uploads|
    ensures |q.files| == |p.files| + |uploads|
    ensures q.files[..|p.files|] == p.files
    ensures forall i :: 0 <= i < |uploads| ==>
              q.files[|p.files| + i] == ImportedFile(ids[i], uploads[i].name, uploads[i].size, uploads[i].mime,
                                                      Uploading, nows[i], None, None, None)
    ensures q.timers == p.timers + seq(|ids|, i requires 0 <= i < |ids| => ProcessingTimer(ids[i]))
    ensures q.selected == p.selected && q.showPreview == p.showPreview
  {
    var created := seq(|uploads|, i requires 0 <= i < |uploads| =>
                   ImportedFile(ids[i], uploads[i].name, uploads[i].size, uploads[i].mime, Uploading, nows[i], None, None, None));
    var timers := seq(|ids|, i requires 0 <= i < |ids| => ProcessingTimer(ids[i]));
    p.(files := p.files + created, timers := p.timers + timers)
  }

  /** The first callback: the file with that id becomes processing; every
      other file is untouched. */
  function MarkProcessing(files: seq<ImportedFile>, id: string): (r: seq<ImportedFile>)
    ensures |r| == |files| && FileIds(r) == FileIds(files)
    ensures forall i :: 0 <= i < |files| && files[i].id != id ==> r[i] == files[i]
    ensures forall i :: 0 <= i < |files| && files[i].id == id ==> r[i] == files[i].(status := Processing)
  {
    seq(|files|, i requires 0 <= i < |files| =>
      if files[i].id == id then files[i].(status := Processing) else files[i])
  }

  /** The completion callback's update of one file (`...f` keeps every
      field but the four it replaces): success when the first draw exceeds
      0.2, with floor(50·x) + 10 transactions and 5000·y + 1000 as the
      amount; otherwise the fixed error message. */
  function Finish(f: ImportedFile, d: Draws): (g: ImportedFile)
    requires ValidDraws(d)
    ensures g.id == f.id && g.name == f.name && g.size == f.size && g.mime == f.mime && g.uploadedAt == f.uploadedAt
    ensures g == f.(status := g.status, transactionsCount := g.transactionsCount,
                    totalAmount := g.totalAmount, errorMessage := g.errorMessage)
    ensures g.status == Completed <==> d.outcome > 0.2
    ensures g.status == Completed || g.status == Error
    ensures g.status == Completed ==> g.transactionsCount.Some? && 10 <= g.transactionsCount.value <= 59
    ensures g.status == Completed ==> g.totalAmount.Some? && 1000.0 <= g.totalAmount.value < 6000.0
    ensures g.status == Completed ==> g.errorMessage.None?
    ensures g.status == Error ==> g.errorMessage == Some(ErrorMessage)
    ensures g.status == Error ==> g.transactionsCount.None? && g.totalAmount.None?
  {
    var success := d.outcome > 0.2;
    f.(status := if success then Completed else Error,
       transactionsCount := if success then Some((d.count * 50.0).Floor + 10) else None,
       totalAmount := if success then Some(d.amount * 5000.0 + 1000.0) else None,
       errorMessage := if success then None else Some(ErrorMessage))
  }

  /** The second callback: only the file with that id is finished. */
  function Complete(files: seq<ImportedFile>, id: string, d: Draws): (r: seq<ImportedFile>)
    requires ValidDraws(d)
    ensures |r| == |files| && FileIds(r) == FileIds(files)
    ensures forall i :: 0 <= i < |files| && files[i].id != id ==> r[i] == files[i]
    ensures forall i :: 0 <= i < |files| && files[i].id == id ==> r[i] == Finish(files[i], d)
  {
    seq(|files|, i requires 0 <= i < |files| =>
      if files[i].id == id then Finish(files[i], d) else files[i])
  }

  function RemoveAt<T>(s: seq<T>, k: nat): (r: seq<T>)
    requires k < |s|
    ensures |r| == |s| - 1
    ensures forall i :: 0 <= i < k ==> r[i] == s[i]
    ensures forall i :: k <= i < |r| ==> r[i] == s[i + 1]
  {
    s[..k] + s[k + 1..]
  }

  /** One pending timer fires: the processing timer marks its file and
      schedules the completion timer; the completion timer finishes it. */
  function FireTimer(p: Page, k: nat, d: Draws): (q: Page)
    requires k < |p.timers| && ValidDraws(d)
    ensures q.selected == p.selected && q.showPreview == p.showPreview
    ensures p.timers[k].ProcessingTimer? ==>
              q.files == MarkProcessing(p.files, p.timers[k].fileId)
              && q.timers == RemoveAt(p.timers, k) + [CompletionTimer(p.timers[k].fileId)]
    ensures p.timers[k].CompletionTimer? ==>
              q.files == Complete(p.files, p.timers[k].fileId, d) && q.timers == RemoveAt(p.timers, k)
  {
    var rest := RemoveAt(p.timers, k);
    match p.timers[k]
    case ProcessingTimer(id) => p.(files := MarkProcessing(p.files, id), timers := rest + [CompletionTimer(id)])
    case CompletionTimer(id) => p.(files := Complete(p.files, id, d), timers := rest)
  }

  /** removeFile: drop every file with that id; the selection and preview
      are cleared only when the selected file had that id. */
  function RemoveFile(p: Page, id: string): (q: Page)
    ensures forall f :: f in q.files <==> f in p.files && f.id != id
    ensures IsSubsequence(q.files, p.files)
    ensures forall f :: multiset(q.files)[f] == if f.id != id then multiset(p.files)[f] else 0
    ensures q.timers == p.timers
    ensures (p.selected.Some? && p.selected.value.id == id) ==> q.selected.None? && !q.showPreview
    ensures !(p.selected.Some? && p.selected.value.id == id) ==>
              q.selected == p.selected && q.showPreview == p.showPreview
  {
    var files := Filter(p.files, (f: ImportedFile) => f.id != id);
    if p.selected.Some? && p.selected.value.id == id then
      p.(files := files, selected := None, showPreview := false)
    else
      p.(files := files)
  }

  /** The eye button, offered only on completed files, opens the preview. */
  function OpenPreview(p: Page, i: nat): (q: Page)
    requires i < |p.files| && p.files[i].status == Completed
    ensures q.files == p.files && q.timers == p.timers
    ensures q.selected == Some(p.files[i]) && q.showPreview
  {
    p.(selected := Some(p.files[i]), showPreview := true)
  }

  /** The close buttons of the preview. */
  function ClosePreview(p: Page): (q: Page)
    ensures q.files == p.files && q.timers == p.timers && q.selected == p.selected
    ensures !q.showPreview
  {
    p.(showPreview := false)
  }

  // ---------------------------------------------------------------------
  // The lifecycle invariant

  /** The optional fields a file carries in each status. */
  predicate FileWellFormed(f: ImportedFile)
  {
    match f.status
    case Uploading | Processing =>
      f.transactionsCount.None? && f.totalAmount.None? && f.errorMessage.None?
    case Completed =>
      && f.transactionsCount.Some? && 10 <= f.transactionsCount.value <= 59
      && f.totalAmount.Some? && 1000.0 <= f.totalAmount.value < 6000.0
      && f.errorMessage.None?
    case Error =>
      f.transactionsCount.None? && f.totalAmount.None? && f.errorMessage == Some(ErrorMessage)
  }

  /** Ids are unique among files and among timers; a file is uploading
      exactly while its processing timer is pending and processing exactly
      while its completion timer is pending. */
  predicate Consistent(p: Page)
  {
    && Distinct(FileIds(p.files))
    && Distinct(TimerIds(p.timers))
    && forall i :: 0 <= i < |p.files| ==>
         && FileWellFormed(p.files[i])
         && (p.files[i].status == Uploading <==> ProcessingTimer(p.files[i].id) in p.timers)
         && (p.files[i].status == Processing <==> CompletionTimer(p.files[i].id) in p.timers)
  }

  lemma EmptyPageIsConsistent()
    ensures Consistent(Page([], [], None, false))
  {
  }

  /** Adding uploads with fresh, pairwise distinct ids keeps the invariant. */
  lemma HandleFilesPreservesConsistency(p: Page, uploads: seq<Upload>, ids: seq<string>, nows: seq<int>)
    requires Consistent(p) && |ids| == |uploads| && |nows| == |uploads|
    requires Distinct(ids)
    requires forall id :: id in ids ==> id !in FileIds(p.files) && id !in TimerIds(p.timers)
    ensures Consistent(HandleFiles(p, uploads, ids, nows))
  {
    var q := HandleFiles(p, uploads, ids, nows);
    var n := |p.files|;
    assert TimerIds(q.timers) == TimerIds(p.timers) + ids by {
      var added := seq(|ids|, i requires 0 <= i < |ids| => ProcessingTimer(ids[i]));
      assert q.timers == p.timers + added;
      forall j | 0 <= j < |q.timers|
        ensures TimerIds(q.timers)[j] == (TimerIds(p.timers) + ids)[j]
      {
        if j >= |p.timers| { assert q.timers[j] == added[j - |p.timers|]; }
      }
    }
    assert FileIds(q.files) == FileIds(p.files) + ids by {
      forall j | 0 <= j < |q.files|
        ensures FileIds(q.files)[j] == (FileIds(p.files) + ids)[j]
      {
        if j < n { assert q.files[j] == q.files[..n][j]; }
      }
    }
    DistinctAppend(FileIds(p.files), ids);
    DistinctAppend(TimerIds(p.timers), ids);
    forall i | 0 <= i < |q.files|
      ensures FileWellFormed(q.files[i])
      ensures q.files[i].status == Uploading <==> ProcessingTimer(q.files[i].id) in q.timers
      ensures q.files[i].status == Processing <==> CompletionTimer(q.files[i].id) in q.timers
    {
      HandleFilesAt(p, uploads, ids, nows, i);
    }
  }

  lemma DistinctAppend(a: seq<string>, b: seq<string>)
    requires Distinct(a) && Distinct(b)
    requires forall x :: x in b ==> x !in a
    ensures Distinct(a + b)
  {
    var c := a + b;
    forall i, j | 0 <= i < j < |c|
      ensures c[i] != c[j]
    {
      if j >= |a| && i < |a| {
        assert c[j] == b[j - |a|] && c[j] in b;
      }
    }
  }

  lemma {:induction false} HandleFilesAt(p: Page, uploads: seq<Upload>, ids: seq<string>, nows: seq<int>, i: nat)
    requires Consistent(p) && |ids| == |uploads| && |nows| == |uploads|
    requires forall id :: id in ids ==> id !in FileIds(p.files) && id !in TimerIds(p.timers)
    requires i < |p.files| + |uploads|
    ensures var q := HandleFiles(p, uploads, ids, nows);
            && FileWellFormed(q.files[i])
            && (q.files[i].status == Uploading <==> ProcessingTimer(q.files[i].id) in q.timers)
            && (q.files[i].status == Processing <==> CompletionTimer(q.files[i].id) in q.timers)
  {
    var q := HandleFiles(p, uploads, ids, nows);
    var n := |p.files|;
    var added := seq(|ids|, i requires 0 <= i < |ids| => ProcessingTimer(ids[i]));
    assert q.timers == p.timers + added;
    if i < n {
      assert q.files[i] == p.files[i];
      assert FileIds(p.files)[i] == p.files[i].id;
      OldIdNotAdded(ids, added, p.files[i].id);
    } else {
      NewIdTimers(p.timers, ids, added, i - n);
    }
  }

  /** The timers scheduled for fresh ids mention no older file. */
  lemma OldIdNotAdded(ids: seq<string>, added: seq<Timer>, id: string)
    requires added == seq(|ids|, i requires 0 <= i < |ids| => ProcessingTimer(ids[i]))
    requires id !in ids
    ensures ProcessingTimer(id) !in added && CompletionTimer(id) !in added
  {
    forall t | t in added
      ensures t.ProcessingTimer? && t.fileId != id
    {
      var j :| 0 <= j < |added| && added[j] == t;
      assert ids[j] in ids;
    }
  }

  /** A fresh id has exactly its processing timer among the pending ones. */
  lemma NewIdTimers(timers: seq<Timer>, ids: seq<string>, added: seq<Timer>, j: nat)
    requires added == seq(|ids|, i requires 0 <= i < |ids| => ProcessingTimer(ids[i]))
    requires j < |ids| && ids[j] !in TimerIds(timers)
    ensures ProcessingTimer(ids[j]) in timers + added
    ensures CompletionTimer(ids[j]) !in timers + added
  {
    var id := ids[j];
    assert added[j] == ProcessingTimer(id);
    assert (timers + added)[|timers| + j] == ProcessingTimer(id);
    forall t | t in timers
      ensures t.fileId != id
    {
      var k :| 0 <= k < |timers| && timers[k] == t;
      assert TimerIds(timers)[k] == t.fileId;
    }
    forall t | t in added
      ensures t.ProcessingTimer?
    {
      var k :| 0 <= k < |added| && added[k] == t;
    }
  }

  /** With one timer per id, removing timer k removes exactly the timers of
      its id. */
  lemma RemoveAtMembership(ts: seq<Timer>, k: nat)
    requires k < |ts| && Distinct(TimerIds(ts))
    ensures forall x :: x in RemoveAt(ts, k) <==> x in ts && x.fileId != ts[k].fileId
    ensures Distinct(TimerIds(RemoveAt(ts, k)))
    ensures forall id :: id in TimerIds(RemoveAt(ts, k)) <==> id in TimerIds(ts) && id != ts[k].fileId
  {
    var r := RemoveAt(ts, k);
    forall x | x in ts && x.fileId != ts[k].fileId
      ensures x in r
    {
      var j :| 0 <= j < |ts| && ts[j] == x;
      assert j != k;
      if j < k { assert r[j] == x; } else { assert r[j - 1] == x; }
    }
    forall x | x in r
      ensures x in ts && x.fileId != ts[k].fileId
    {
      var j :| 0 <= j < |r| && r[j] == x;
      if j < k {
        assert TimerIds(ts)[j] != TimerIds(ts)[k];
      } else {
        assert TimerIds(ts)[j + 1] != TimerIds(ts)[k];
      }
    }
    forall a, b | 0 <= a < b < |r|
      ensures TimerIds(r)[a] != TimerIds(r)[b]
    {
      var a' := if a < k then a else a + 1;
      var b' := if b < k then b else b + 1;
      assert TimerIds(ts)[a'] != TimerIds(ts)[b'];
    }
    forall id | id in TimerIds(r)
      ensures id in TimerIds(ts) && id != ts[k].fileId
    {
      var j :| 0 <= j < |r| && TimerIds(r)[j] == id;
      assert r[j] in r;
    }
    forall id | id in TimerIds(ts) && id != ts[k].fileId
      ensures id in TimerIds(r)
    {
      var j :| 0 <= j < |ts| && TimerIds(ts)[j] == id;
      assert ts[j] in r;
      var m :| 0 <= m < |r| && r[m] == ts[j];
      assert TimerIds(r)[m] == id;
    }
  }

  /** Firing any pending timer keeps the invariant. */
  lemma {:induction false} FireTimerPreservesConsistency(p: Page, k: nat, d: Draws)
    requires Consistent(p) && k < |p.timers| && ValidDraws(d)
    ensures Consistent(FireTimer(p, k, d))
  {
    var q := FireTimer(p, k, d);
    var t := p.timers[k];
    var id := t.fileId;
    var rest := RemoveAt(p.timers, k);
    RemoveAtMembership(p.timers, k);
    assert FileIds(q.files) == FileIds(p.files);
    if t.ProcessingTimer? {
      assert TimerIds(q.timers) == TimerIds(rest) + [id];
    } else {
      assert q.timers == rest;
    }
    forall i | 0 <= i < |q.files|
      ensures FileWellFormed(q.files[i])
      ensures q.files[i].status == Uploading <==> ProcessingTimer(q.files[i].id) in q.timers
      ensures q.files[i].status == Processing <==> CompletionTimer(q.files[i].id) in q.timers
    {
      FireTimerAt(p, k, d, i);
    }
  }

  lemma {:induction false} FireTimerAt(p: Page, k: nat, d: Draws, i: nat)
    requires Consistent(p) && k < |p.timers| && ValidDraws(d) && i < |p.files|
    requires forall x :: x in RemoveAt(p.timers, k) <==> x in p.timers && x.fileId != p.timers[k].fileId
    ensures var q := FireTimer(p, k, d);
            && FileWellFormed(q.files[i])
            && (q.files[i].status == Uploading <==> ProcessingTimer(q.files[i].id) in q.timers)
            && (q.files[i].status == Processing <==> CompletionTimer(q.files[i].id) in q.timers)
  {
    var q := FireTimer(p, k, d);
    var t := p.timers[k];
    var f := p.files[i];
    var rest := RemoveAt(p.timers, k);
    assert forall x :: x in q.timers ==> x in rest || x == CompletionTimer(t.fileId);
    if f.id != t.fileId {
      assert q.files[i] == f;
      assert ProcessingTimer(f.id) in q.timers <==> ProcessingTimer(f.id) in p.timers;
      assert CompletionTimer(f.id) in q.timers <==> CompletionTimer(f.id) in p.timers;
    } else if t.ProcessingTimer? {
      assert p.timers[k] == ProcessingTimer(f.id);
      assert f.status == Uploading;
      assert q.files[i] == f.(status := Processing);
      assert ProcessingTimer(f.id) !in q.timers;
      assert CompletionTimer(f.id) in q.timers;
    } else {
      assert p.timers[k] == CompletionTimer(f.id);
      assert f.status == Processing;
      assert q.files[i] == Finish(f, d);
      assert q.timers == rest;
    }
  }

  /** Removing files keeps the invariant: the timers of a removed file stay
      pending and later update nothing. */
  lemma RemoveFilePreservesConsistency(p: Page, id: string)
    requires Consistent(p)
    ensures Consistent(RemoveFile(p, id))
  {
    var q := RemoveFile(p, id);
    forall a, b | 0 <= a < b < |q.files|
      ensures q.files[a].id != q.files[b].id
    {
      SubsequenceKeepsDistinctIds(q.files, p.files, a, b);
    }
    forall i | 0 <= i < |q.files|
      ensures FileWellFormed(q.files[i])
      ensures q.files[i].status == Uploading <==> ProcessingTimer(q.files[i].id) in q.timers
      ensures q.files[i].status == Processing <==> CompletionTimer(q.files[i].id) in q.timers
    {
      assert q.files[i] in p.files;
    }
  }

  lemma {:induction false} SubsequenceKeepsDistinctIds(sub: seq<ImportedFile>, xs: seq<ImportedFile>, a: nat, b: nat)
    requires IsSubsequence(sub, xs) && Distinct(FileIds(xs))
    requires a < b < |sub|
    ensures sub[a].id != sub[b].id
    decreases |xs|
  {
    var init := xs[..|xs| - 1];
    assert Distinct(FileIds(init)) by {
      forall u, v | 0 <= u < v < |init|
        ensures FileIds(init)[u] != FileIds(init)[v]
      {
        assert FileIds(xs)[u] != FileIds(xs)[v];
      }
    }
    if IsSubsequence(sub, init) {
      SubsequenceKeepsDistinctIds(sub, init, a, b);
    } else {
      var s' := sub[..|sub| - 1];
      if b < |sub| - 1 {
        SubsequenceKeepsDistinctIds(s', init, a, b);
      } else {
        SubsequenceMembers(s', init);
        assert sub[a] == s'[a] && s'[a] in init;
        var j :| 0 <= j < |init| && init[j] == sub[a];
        assert FileIds(xs)[j] != FileIds(xs)[|xs| - 1];
      }
    }
  }

  lemma {:induction false} SubsequenceMembers<T>(sub: seq<T>, xs: seq<T>)
    requires IsSubsequence(sub, xs)
    ensures forall x :: x in sub ==> x in xs
    decreases |xs|
  {
    if |xs| > 0 {
      var init := xs[..|xs| - 1];
      if IsSubsequence(sub, init) {
        SubsequenceMembers(sub, init);
      } else {
        SubsequenceMembers(sub[..|sub| - 1], init);
        assert sub == sub[..|sub| - 1] + [xs[|xs| - 1]];
      }
    }
  }

  /** The statuses a file may move between in one step. */
  predicate Step(a: Status, b: Status)
  {
    a == b || (a == Uploading && b == Processing) || (a == Processing && (b == Completed || b == Error))
  }

  /** Under the invariant a timer changes only the file of its own id, and
      only along uploading → processing → completed | error; completed and
      error files never change. */
  lemma FireTimerFollowsLifecycle(p: Page, k: nat, d: Draws)
    requires Consistent(p) && k < |p.timers| && ValidDraws(d)
    ensures var q := FireTimer(p, k, d);
            && |q.files| == |p.files|
            && (forall i :: 0 <= i < |p.files| ==> q.files[i].id == p.files[i].id)
            && (forall i :: 0 <= i < |p.files| ==> Step(p.files[i].status, q.files[i].status))
            && (forall i :: 0 <= i < |p.files| && p.files[i].id != p.timers[k].fileId ==> q.files[i] == p.files[i])
            && (forall i :: 0 <= i < |p.files| && p.files[i].status in {Completed, Error} ==> q.files[i] == p.files[i])
  {
    var q := FireTimer(p, k, d);
    var t := p.timers[k];
    assert t in p.timers;
    forall i | 0 <= i < |p.files| && p.files[i].id == t.fileId
      ensures Step(p.files[i].status, q.files[i].status)
      ensures p.files[i].status !in {Completed, Error}
    {
      var f := p.files[i];
      if t.ProcessingTimer? {
        assert t == ProcessingTimer(f.id);
      } else {
        assert t == CompletionTimer(f.id);
      }
    }
  }

  // ---------------------------------------------------------------------
  // Statistics

  function CompletedFiles(files: seq<ImportedFile>): (r: seq<ImportedFile>)
    ensures |r| <= |files|
    ensures forall f :: f in r <==> f in files && f.status == Completed
    ensures IsSubsequence(r, files)
    ensures forall f :: multiset(r)[f] == if f.status == Completed then multiset(files)[f] else 0
  {
    Filter(files, (f: ImportedFile) => f.status == Completed)
  }

  /** `x || 0` on an optional number: a missing value counts as 0. */
  function CountOrZero(f: ImportedFile): int
  {
    if f.transactionsCount.Some? then f.transactionsCount.value else 0
  }

  function AmountOrZero(f: ImportedFile): real
  {
    if f.totalAmount.Some? then f.totalAmount.value else 0.0
  }

  function SumCounts(files: seq<ImportedFile>): int
  {
    if |files| == 0 then 0 else SumCounts(files[..|files| - 1]) + CountOrZero(files[|files| - 1])
  }

  function SumAmounts(files: seq<ImportedFile>): real
  {
    if |files| == 0 then 0.0 else SumAmounts(files[..|files| - 1]) + AmountOrZero(files[|files| - 1])
  }

  /** totalTransactions: the counts of the completed files. */
  function TotalTransactions(files: seq<ImportedFile>): int
  {
    SumCounts(CompletedFiles(files))
  }

  /** totalAmount: the amounts of the completed files. */
  function TotalAmount(files: seq<ImportedFile>): real
  {
    SumAmounts(CompletedFiles(files))
  }

  /** The success-rate card: completed over all files, rounded, or 0. */
  function SuccessRate(files: seq<ImportedFile>): (r: int)
    ensures |files| == 0 ==> r == 0
    ensures 0 <= r <= 100
    ensures |files| > 0 ==>
              var exact := |CompletedFiles(files)| as real / |files| as real * 100.0;
              r as real - 0.5 <= exact < r as real + 0.5
  {
    if |files| > 0 then
      var c := |CompletedFiles(files)|;
      var x := c as real / |files| as real * 100.0;
      ShareWithin(c as real, |files| as real);
      RoundWithin(x, 0, 100);
      Round(x)
    else 0
  }

  lemma ShareWithin(part: real, whole: real)
    requires 0.0 <= part <= whole && whole > 0.0
    ensures 0.0 <= part / whole * 100.0 <= 100.0
  {
    assert part / whole <= 1.0;
  }

  /** Only completed files carry counts and amounts, so under the invariant
      the completed-only totals equal the totals over every file. */
  lemma {:induction false} CompletedTotalsCoverAllFiles(files: seq<ImportedFile>)
    requires forall i :: 0 <= i < |files| ==> FileWellFormed(files[i])
    ensures TotalTransactions(files) == SumCounts(files)
    ensures TotalAmount(files) == SumAmounts(files)
    decreases |files|
  {
    if |files| > 0 {
      var init := files[..|files| - 1];
      var last := files[|files| - 1];
      CompletedTotalsCoverAllFiles(init);
      var c := CompletedFiles(init);
      if last.status == Completed {
        assert CompletedFiles(files) == c + [last];
        assert (c + [last])[..|c|] == c;
      } else {
        assert CompletedFiles(files) == c;
      }
    }
  }

  /** Every completed file brings 10..59 transactions and an amount in
      [1000, 6000), so the totals are bounded by the number of completed
      files. */
  lemma {:induction false} TotalsBoundedByCompleted(files: seq<ImportedFile>)
    requires forall i :: 0 <= i < |files| ==> FileWellFormed(files[i])
    ensures var c := |CompletedFiles(files)|;
            10 * c <= TotalTransactions(files) <= 59 * c
            && 1000.0 * c as real <= TotalAmount(files) <= 6000.0 * c as real
    decreases |files|
  {
    if |files| > 0 {
      var init := files[..|files| - 1];
      var last := files[|files| - 1];
      TotalsBoundedByCompleted(init);
      var c := CompletedFiles(init);
      if last.status == Completed {
        assert CompletedFiles(files) == c + [last];
        assert (c + [last])[..|c|] == c;
      } else {
        assert CompletedFiles(files) == c;
      }
    }
  }

  // ---------------------------------------------------------------------
  // Labels

  function StatusText(s: Status): string
  {
    match s
    case Uploading => "Enviando..."
    case Processing => "Processando..."
    case Completed => "Concluído"
    case Error => "Erro"
  }

  /** Each status has its own label, so the label identifies the status. */
  lemma StatusTextInjective(a: Status, b: Status)
    ensures StatusText(a) == StatusText(b) <==> a == b
  {
    if a != b {
      assert StatusText(a)[0] != StatusText(b)[0] || |StatusText(a)| != |StatusText(b)|;
    }
  }

  /** The width of the progress bar of a file still in flight. */
  function ProgressWidth(s: Status): (w: Option<int>)
    ensures w.Some? <==> s == Uploading || s == Processing
    ensures s == Uploading ==> w == Some(30)
    ensures s == Processing ==> w == Some(70)
  {
    match s
    case Uploading => Some(30)
    case Processing => Some(70)
    case _ => None
  }

  /** The bar only grows as a file moves through its lifecycle, and it
      disappears once the file is completed or failed. */
  lemma ProgressFollowsLifecycle(a: Status, b: Status)
    requires Step(a, b)
    ensures ProgressWidth(a).Some? && ProgressWidth(b).Some? ==>
              ProgressWidth(a).value <= ProgressWidth(b).value
    ensures ProgressWidth(a).None? ==> ProgressWidth(b).None?
  {
  }

  datatype Tone = Green | Yellow | Red

  /** The confidence badge of a processed transaction. */
  function ConfidenceTone(confidence: real): (t: Tone)
    ensures t == Green <==> confidence >= 95.0
    ensures t == Yellow <==> 80.0 <= confidence < 95.0
    ensures t == Red <==> confidence < 80.0
  {
    if confidence >= 95.0 then Green else if confidence >= 80.0 then Yellow else Red
  }

  function ToneRank(t: Tone): int
  {
    match t
    case Red => 0
    case Yellow => 1
    case Green => 2
  }

  /** The badge never gets worse as the confidence rises. */
  lemma ConfidenceToneMonotone(a: real, b: real)
    ensures a <= b ==> ToneRank(ConfidenceTone(a)) <= ToneRank(ConfidenceTone(b))
  {
  }
}
