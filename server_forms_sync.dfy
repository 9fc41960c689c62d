/** The catalog reconciler: brings the local forms repository in line with
    the server's form listing. Forms whose form id the server no longer
    lists are deleted, then every listed form that is new or updated is
    handed to the downloader, one at a time, in listing order. */
module ServerFormsSync {
  import opened Records

  /** The listing fetcher's failure kinds. FetchError is also what the
      reconciler raises when some download failed. */
  datatype SourceError = FetchError | ListingError(reason: string)

  /** What fetchFormDetails produced: the listing, or the exception it threw. */
  datatype Listing = Listed(forms: seq<RemoteForm>) | ListingFailed(error: SourceError)

  /** How one downloadForm call ended. */
  datatype DownloadOutcome = Downloaded | DownloadFailed | Interrupted

  /** The calls the reconciler makes on its collaborators, in issue order. */
  datatype Call = DeleteForm(id: int) | DownloadForm(form: RemoteForm)

  datatype SyncResult = Synced | Failed(error: SourceError)

  /** Some listed descriptor carries this form's form id (versions are not compared). */
  predicate OnServer(f: Form, remote: seq<RemoteForm>) {
    exists r :: r in remote && r.formId == f.jrFormId
  }

  predicate NeedsDownload(r: RemoteForm) {
    r.isNotOnDevice || r.isUpdated
  }

  predicate DistinctIds(forms: seq<Form>) {
    forall j, k :: 0 <= j < k < |forms| ==> forms[j].id != forms[k].id
  }

  /** The local forms the server no longer lists, in repository order. */
  function Stale(local: seq<Form>, remote: seq<RemoteForm>): seq<Form> {
    if |local| == 0 then []
    else
      var n := |local| - 1;
      Stale(local[..n], remote) + (if OnServer(local[n], remote) then [] else [local[n]])
  }

  /** The local forms the server still lists, in repository order. */
  function Kept(local: seq<Form>, remote: seq<RemoteForm>): seq<Form> {
    if |local| == 0 then []
    else
      var n := |local| - 1;
      Kept(local[..n], remote) + (if OnServer(local[n], remote) then [local[n]] else [])
  }

  /** The delete phase partitions the local forms by whether the listing
      carries their form id. */
  lemma {:induction false} PartitionMembers(local: seq<Form>, remote: seq<RemoteForm>)
    ensures forall f :: f in Stale(local, remote) <==> f in local && !OnServer(f, remote)
    ensures forall f :: f in Kept(local, remote) <==> f in local && OnServer(f, remote)
  {
    if |local| > 0 {
      var n := |local| - 1;
      PartitionMembers(local[..n], remote);
      assert forall f :: f in local <==> f in local[..n] || f == local[n];
    }
  }

  /** The listed descriptors that need a download, in listing order. */
  function EligibleForms(remote: seq<RemoteForm>): seq<RemoteForm> {
    if |remote| == 0 then []
    else
      var n := |remote| - 1;
      EligibleForms(remote[..n]) + (if NeedsDownload(remote[n]) then [remote[n]] else [])
  }

  /** A descriptor is to be downloaded iff it is listed and is new or updated. */
  lemma {:induction false} EligibleMembers(remote: seq<RemoteForm>)
    ensures forall r :: r in EligibleForms(remote) <==> r in remote && NeedsDownload(r)
  {
    if |remote| > 0 {
      var n := |remote| - 1;
      EligibleMembers(remote[..n]);
      assert forall r :: r in remote <==> r in remote[..n] || r == remote[n];
    }
  }

  /** The forms repository after deleting the form with primary key `id`. */
  function RemoveId(forms: seq<Form>, id: int): seq<Form> {
    if |forms| == 0 then []
    else
      var n := |forms| - 1;
      RemoveId(forms[..n], id) + (if forms[n].id == id then [] else [forms[n]])
  }

  function DeleteCalls(forms: seq<Form>): seq<Call> {
    if |forms| == 0 then []
    else DeleteCalls(forms[..|forms| - 1]) + [DeleteForm(forms[|forms| - 1].id)]
  }

  function DownloadCalls(forms: seq<RemoteForm>): seq<Call> {
    if |forms| == 0 then []
    else DownloadCalls(forms[..|forms| - 1]) + [DownloadForm(forms[|forms| - 1])]
  }

  /** The state of the download loop: the descriptors handed to the
      downloader so far, the failure flag, and whether it was interrupted. */
  datatype DownloadRun = DownloadRun(requested: seq<RemoteForm>, anyFailed: bool, interrupted: bool)

  /** The download loop over the listing, `outcomes[k]` being what the
      downloader does with `remote[k]` if asked. Once interrupted nothing
      further happens. */
  function RunDownloads(remote: seq<RemoteForm>, outcomes: seq<DownloadOutcome>): (run: DownloadRun)
    requires |outcomes| == |remote|
    ensures |run.requested| <= |remote|
    ensures forall k :: 0 <= k < |run.requested| ==> NeedsDownload(run.requested[k])
    ensures (run.anyFailed || run.interrupted) ==> |run.requested| > 0
  {
    if |remote| == 0 then DownloadRun([], false, false)
    else
      var n := |remote| - 1;
      var prev := RunDownloads(remote[..n], outcomes[..n]);
      if prev.interrupted || !NeedsDownload(remote[n]) then prev
      else DownloadRun(prev.requested + [remote[n]],
                       prev.anyFailed || outcomes[n] == DownloadFailed,
                       outcomes[n] == Interrupted)
  }

  /** The position of the first descriptor whose download is interrupted,
      or |remote| if none is. */
  function FirstInterrupt(remote: seq<RemoteForm>, outcomes: seq<DownloadOutcome>): (k: nat)
    requires |outcomes| == |remote|
    ensures k <= |remote|
    ensures k < |remote| ==> NeedsDownload(remote[k]) && outcomes[k] == Interrupted
    ensures forall j :: 0 <= j < k && j < |remote| ==> !(NeedsDownload(remote[j]) && outcomes[j] == Interrupted)
  {
    if |remote| == 0 then 0
    else
      var n := |remote| - 1;
      var k := FirstInterrupt(remote[..n], outcomes[..n]);
      if k < n then k
      else if NeedsDownload(remote[n]) && outcomes[n] == Interrupted then n
      else n + 1
  }

  /** The reconciler's result once the download loop has ended. */
  function ResultOf(run: DownloadRun): SyncResult {
    if !run.interrupted && run.anyFailed then Failed(FetchError) else Synced
  }

  lemma {:induction false} InterruptedIffFirstInterrupt(remote: seq<RemoteForm>, outcomes: seq<DownloadOutcome>)
    requires |outcomes| == |remote|
    ensures RunDownloads(remote, outcomes).interrupted <==> FirstInterrupt(remote, outcomes) < |remote|
  {
    if |remote| > 0 {
      var n := |remote| - 1;
      InterruptedIffFirstInterrupt(remote[..n], outcomes[..n]);
    }
  }

  lemma {:induction false} RequestedUpToFirstInterrupt(remote: seq<RemoteForm>, outcomes: seq<DownloadOutcome>)
    requires |outcomes| == |remote|
    ensures var k := FirstInterrupt(remote, outcomes);
            RunDownloads(remote, outcomes).requested == EligibleForms(remote[..if k < |remote| then k + 1 else |remote|])
  {
    if |remote| > 0 {
      var n := |remote| - 1;
      var pre, preOut := remote[..n], outcomes[..n];
      RequestedUpToFirstInterrupt(pre, preOut);
      InterruptedIffFirstInterrupt(pre, preOut);
      var k' := FirstInterrupt(pre, preOut);
      var k := FirstInterrupt(remote, outcomes);
      var run, prev := RunDownloads(remote, outcomes), RunDownloads(pre, preOut);
      if k' < n {
        assert prev.interrupted && run == prev && k == k';
        assert pre[..k' + 1] == remote[..k + 1];
      } else {
        assert !prev.interrupted;
        assert pre[..n] == pre;
        assert prev.requested == EligibleForms(pre);
        assert remote[..if k < |remote| then k + 1 else |remote|] == remote;
        assert EligibleForms(remote) == EligibleForms(pre) + (if NeedsDownload(remote[n]) then [remote[n]] else []);
      }
    }
  }

  lemma {:induction false} FailedBeforeFirstInterrupt(remote: seq<RemoteForm>, outcomes: seq<DownloadOutcome>)
    requires |outcomes| == |remote|
    ensures RunDownloads(remote, outcomes).anyFailed <==>
              exists j :: 0 <= j < FirstInterrupt(remote, outcomes) && j < |remote|
                          && NeedsDownload(remote[j]) && outcomes[j] == DownloadFailed
  {
    if |remote| > 0 {
      var n := |remote| - 1;
      var pre, preOut := remote[..n], outcomes[..n];
      FailedBeforeFirstInterrupt(pre, preOut);
      InterruptedIffFirstInterrupt(pre, preOut);
    }
  }

  /** The download loop, stated against the listing alone: the downloader
      is asked for exactly the new or updated descriptors, in listing order,
      up to and including the first interrupted one; an interruption is
      reported iff one happened; and the failure flag is set iff some
      download before the first interruption failed. */
  lemma DownloadsExactlyEligible(remote: seq<RemoteForm>, outcomes: seq<DownloadOutcome>)
    requires |outcomes| == |remote|
    ensures var k := FirstInterrupt(remote, outcomes);
            var run := RunDownloads(remote, outcomes);
            && (run.interrupted <==> k < |remote|)
            && run.requested == EligibleForms(remote[..if k < |remote| then k + 1 else |remote|])
            && (run.anyFailed <==> exists j :: 0 <= j < k && j < |remote| && NeedsDownload(remote[j]) && outcomes[j] == DownloadFailed)
  {
    InterruptedIffFirstInterrupt(remote, outcomes);
    RequestedUpToFirstInterrupt(remote, outcomes);
    FailedBeforeFirstInterrupt(remote, outcomes);
  }

  /** An uninterrupted loop hands the downloader every new or updated
      descriptor and no other; a failed download does not stop later ones. */
  lemma DownloadsIffNeeded(remote: seq<RemoteForm>, outcomes: seq<DownloadOutcome>)
    requires |outcomes| == |remote|
    requires forall j :: 0 <= j < |remote| ==> outcomes[j] != Interrupted
    ensures RunDownloads(remote, outcomes).requested == EligibleForms(remote)
    ensures forall r :: r in remote ==> (DownloadForm(r) in DownloadCalls(RunDownloads(remote, outcomes).requested) <==> NeedsDownload(r))
    ensures RunDownloads(remote, outcomes).anyFailed <==>
              exists j :: 0 <= j < |remote| && NeedsDownload(remote[j]) && outcomes[j] == DownloadFailed
    ensures ResultOf(RunDownloads(remote, outcomes)) == Failed(FetchError) <==>
              exists j :: 0 <= j < |remote| && NeedsDownload(remote[j]) && outcomes[j] == DownloadFailed
  {
    DownloadsExactlyEligible(remote, outcomes);
    assert remote[..|remote|] == remote;
    EligibleMembers(remote);
    DownloadCallsAre(EligibleForms(remote));
  }

  /** An interruption ends synchronization normally, whatever failed before
      it, and nothing listed after the interrupted descriptor is requested. */
  lemma InterruptIsSilent(remote: seq<RemoteForm>, outcomes: seq<DownloadOutcome>)
    requires |outcomes| == |remote|
    requires FirstInterrupt(remote, outcomes) < |remote|
    ensures ResultOf(RunDownloads(remote, outcomes)) == Synced
    ensures forall r :: r in RunDownloads(remote, outcomes).requested ==>
              r in remote[..FirstInterrupt(remote, outcomes) + 1]
  {
    DownloadsExactlyEligible(remote, outcomes);
    EligibleMembers(remote[..FirstInterrupt(remote, outcomes) + 1]);
  }

  lemma {:induction false} DownloadCallsAre(forms: seq<RemoteForm>)
    ensures forall r :: DownloadForm(r) in DownloadCalls(forms) <==> r in forms
    ensures forall c :: c in DownloadCalls(forms) ==> c.DownloadForm?
  {
    if |forms| > 0 {
      var n := |forms| - 1;
      DownloadCallsAre(forms[..n]);
      assert forall r :: r in forms <==> r in forms[..n] || r == forms[n];
    }
  }

  lemma {:induction false} DeleteCallsAre(forms: seq<Form>)
    ensures forall id :: DeleteForm(id) in DeleteCalls(forms) <==> exists f :: f in forms && f.id == id
    ensures forall c :: c in DeleteCalls(forms) ==> c.DeleteForm?
  {
    if |forms| > 0 {
      var n := |forms| - 1;
      DeleteCallsAre(forms[..n]);
      assert forall f :: f in forms <==> f in forms[..n] || f == forms[n];
    }
  }

  /** The delete phase removes a local form iff the server lists no form
      with its form id; forms still listed are kept whatever their version. */
  lemma DeletesExactlyUnlisted(local: seq<Form>, remote: seq<RemoteForm>, f: Form)
    requires DistinctIds(local)
    requires f in local
    ensures DeleteForm(f.id) in DeleteCalls(Stale(local, remote)) <==> !OnServer(f, remote)
    ensures f in Kept(local, remote) <==> OnServer(f, remote)
  {
    DeleteCallsAre(Stale(local, remote));
    PartitionMembers(local, remote);
    if DeleteForm(f.id) in DeleteCalls(Stale(local, remote)) {
      var g :| g in Stale(local, remote) && g.id == f.id;
      var j :| 0 <= j < |local| && local[j] == g;
      var k :| 0 <= k < |local| && local[k] == f;
      assert j == k;
    }
  }

  /** Every deletion is issued before any download. */
  lemma DeletionsPrecedeDownloads(stale: seq<Form>, requested: seq<RemoteForm>)
    ensures var calls := DeleteCalls(stale) + DownloadCalls(requested);
            forall i, j :: 0 <= i < j < |calls| && calls[j].DeleteForm? ==> calls[i].DeleteForm?
  {
    DeleteCallsAre(stale);
    DownloadCallsAre(requested);
    var d := DeleteCalls(stale);
    var calls := d + DownloadCalls(requested);
    assert forall m :: |d| <= m < |calls| ==> calls[m] in DownloadCalls(requested);
    assert forall m :: 0 <= m < |d| ==> calls[m] in d;
  }

  lemma {:induction false} RemoveIdAppend(a: seq<Form>, b: seq<Form>, id: int)
    ensures RemoveId(a + b, id) == RemoveId(a, id) + RemoveId(b, id)
  {
    if |b| > 0 {
      var n := |b| - 1;
      assert (a + b)[..|a| + n] == a + b[..n];
      RemoveIdAppend(a, b[..n], id);
    } else {
      assert a + b == a;
    }
  }

  lemma {:induction false} RemoveIdAbsent(forms: seq<Form>, id: int)
    requires forall k :: 0 <= k < |forms| ==> forms[k].id != id
    ensures RemoveId(forms, id) == forms
  {
    if |forms| > 0 {
      var n := |forms| - 1;
      var pre := forms[..n];
      assert forall k :: 0 <= k < |pre| ==> pre[k] == forms[k];
      RemoveIdAbsent(pre, id);
      assert pre + [forms[n]] == forms;
    }
  }

  lemma {:induction false} KeptDistinct(local: seq<Form>, remote: seq<RemoteForm>)
    requires DistinctIds(local)
    ensures DistinctIds(Kept(local, remote))
  {
    if |local| > 0 {
      var n := |local| - 1;
      var pre := Kept(local[..n], remote);
      KeptDistinct(local[..n], remote);
      PartitionMembers(local[..n], remote);
      if OnServer(local[n], remote) {
        var s := pre + [local[n]];
        forall j, k | 0 <= j < k < |s| ensures s[j].id != s[k].id {
          if k == |pre| {
            assert s[j] in local[..n];
          }
        }
      }
    }
  }

  /** The device side of the reconciler: the forms repository it deletes
      from and the record of every call it makes on the repository and on
      the downloader. */
  class Synchronizer {
    var forms: seq<Form>
    var calls: seq<Call>

    ghost predicate Valid()
      reads this
    {
      DistinctIds(forms)
    }

    constructor(forms: seq<Form>)
      requires DistinctIds(forms)
      ensures Valid() && this.forms == forms && calls == []
    {
      this.forms := forms;
      calls := [];
    }

    /** FormDeleter.delete: the form with this primary key leaves the repository. */
    method Delete(id: int)
      modifies this
      ensures forms == RemoveId(old(forms), id)
      ensures calls == old(calls) + [DeleteForm(id)]
    {
      forms := RemoveId(forms, id);
      calls := calls + [DeleteForm(id)];
    }

    /** synchronize(): `listing` is what the fetcher returned, `outcomes[k]`
        what the downloader does with the k-th listed descriptor if asked.
        A failed fetch propagates before anything is touched; an interrupted
        download ends the operation normally. */
    method Synchronize(listing: Listing, outcomes: seq<DownloadOutcome>) returns (r: SyncResult)
      requires Valid()
      requires listing.Listed? ==> |outcomes| == |listing.forms|
      modifies this
      ensures Valid()
      ensures listing.ListingFailed? ==>
                r == Failed(listing.error) && forms == old(forms) && calls == old(calls)
      ensures listing.Listed? ==>
                var run := RunDownloads(listing.forms, outcomes);
                && forms == Kept(old(forms), listing.forms)
                && calls == old(calls) + DeleteCalls(Stale(old(forms), listing.forms)) + DownloadCalls(run.requested)
                && r == ResultOf(run)
    {
      if listing.ListingFailed? {
        return Failed(listing.error);
      }
      DeleteUnlisted(listing.forms);
      var downloadException, interrupted := DownloadNeeded(listing.forms, outcomes);
      if interrupted {
        return Synced;
      }
      if downloadException {
        return Failed(FetchError);
      }
      return Synced;
    }

    /** The delete phase: every local form whose form id the listing does
        not carry is deleted, in repository order. */
    method DeleteUnlisted(remote: seq<RemoteForm>)
      requires Valid()
      modifies this
      ensures Valid()
      ensures forms == Kept(old(forms), remote)
      ensures calls == old(calls) + DeleteCalls(Stale(old(forms), remote))
    {
      var onDevice := forms;
      var calls0 := calls;
      var i := 0;
      assert onDevice[..0] == [] && onDevice[0..] == onDevice;
      while i < |onDevice|
        invariant 0 <= i <= |onDevice|
        invariant forms == Kept(onDevice[..i], remote) + onDevice[i..]
        invariant calls == calls0 + DeleteCalls(Stale(onDevice[..i], remote))
      {
        DeleteIfUnlisted(onDevice[i], remote, onDevice, i, calls0);
        i := i + 1;
      }
      assert onDevice[..i] == onDevice && onDevice[i..] == [];
      assert forms == Kept(onDevice, remote) + [];
      KeptDistinct(onDevice, remote);
    }

    /** The body of the delete phase for the i-th form on the device: it
        is deleted iff the listing carries no form with its form id. */
    method DeleteIfUnlisted(f: Form, remote: seq<RemoteForm>, ghost onDevice: seq<Form>, ghost i: nat, ghost calls0: seq<Call>)
      requires DistinctIds(onDevice) && i < |onDevice| && f == onDevice[i]
      requires forms == Kept(onDevice[..i], remote) + onDevice[i..]
      requires calls == calls0 + DeleteCalls(Stale(onDevice[..i], remote))
      modifies this
      ensures forms == Kept(onDevice[..i + 1], remote) + onDevice[i + 1..]
      ensures calls == calls0 + DeleteCalls(Stale(onDevice[..i + 1], remote))
    {
      ghost var formsBefore, callsBefore := forms, calls;
      if !OnServer(f, remote) {
        Delete(f.id);
      }
      DeleteLoopStep(onDevice, i, remote, calls0, formsBefore, callsBefore, forms, calls);
    }

    /** The download loop: each new or updated descriptor is handed to the
        downloader in listing order; a failure is remembered and the loop
        goes on; an interruption stops it at once. */
    method DownloadNeeded(remote: seq<RemoteForm>, outcomes: seq<DownloadOutcome>)
      returns (downloadException: bool, interrupted: bool)
      requires |outcomes| == |remote|
      modifies this
      ensures forms == old(forms)
      ensures var run := RunDownloads(remote, outcomes);
              && calls == old(calls) + DownloadCalls(run.requested)
              && downloadException == run.anyFailed
              && interrupted == run.interrupted
    {
      downloadException, interrupted := false, false;
      for k := 0 to |remote|
        invariant forms == old(forms)
        invariant !RunDownloads(remote[..k], outcomes[..k]).interrupted
        invariant downloadException == RunDownloads(remote[..k], outcomes[..k]).anyFailed
        invariant calls == old(calls) + DownloadCalls(RunDownloads(remote[..k], outcomes[..k]).requested)
      {
        DownloadStep(remote, outcomes, k);
        if NeedsDownload(remote[k]) {
          ghost var done := DownloadCalls(RunDownloads(remote[..k], outcomes[..k]).requested);
          calls := calls + [DownloadForm(remote[k])];
          SeqAssoc(old(calls), done, [DownloadForm(remote[k])]);
          match outcomes[k]
          case Downloaded =>
          case DownloadFailed =>
            downloadException := true;
          case Interrupted =>
            InterruptSticks(remote, outcomes, k + 1);
            assert remote[..|remote|] == remote;
            assert outcomes[..|remote|] == outcomes;
            interrupted := true;
            return;
        }
      }
      assert remote[..|remote|] == remote;
      assert outcomes[..|remote|] == outcomes;
    }
  }

  /** One iteration of the delete phase, in terms of the phase's result on
      the forms already visited. */
  lemma DeletePhaseStep(onDevice: seq<Form>, i: nat, remote: seq<RemoteForm>)
    requires DistinctIds(onDevice) && i < |onDevice|
    ensures var f := onDevice[i];
            if OnServer(f, remote) then
              && Kept(onDevice[..i + 1], remote) + onDevice[i + 1..] == Kept(onDevice[..i], remote) + onDevice[i..]
              && Stale(onDevice[..i + 1], remote) == Stale(onDevice[..i], remote)
            else
              && RemoveId(Kept(onDevice[..i], remote) + onDevice[i..], f.id) == Kept(onDevice[..i + 1], remote) + onDevice[i + 1..]
              && DeleteCalls(Stale(onDevice[..i + 1], remote)) == DeleteCalls(Stale(onDevice[..i], remote)) + [DeleteForm(f.id)]
  {
    var f := onDevice[i];
    PrefixStep(onDevice, i, remote);
    if OnServer(f, remote) {
      assert Stale(onDevice[..i], remote) + [] == Stale(onDevice[..i], remote);
    } else {
      DeleteStep(onDevice, i, remote);
      DeleteCallsSnoc(Stale(onDevice[..i], remote), f);
    }
  }

  /** The delete loop's invariant is kept by one iteration, whichever
      branch it takes. */
  lemma DeleteLoopStep(onDevice: seq<Form>, i: nat, remote: seq<RemoteForm>, calls0: seq<Call>,
                       formsBefore: seq<Form>, callsBefore: seq<Call>, formsAfter: seq<Form>, callsAfter: seq<Call>)
    requires DistinctIds(onDevice) && i < |onDevice|
    requires formsBefore == Kept(onDevice[..i], remote) + onDevice[i..]
    requires callsBefore == calls0 + DeleteCalls(Stale(onDevice[..i], remote))
    requires OnServer(onDevice[i], remote) ==> formsAfter == formsBefore && callsAfter == callsBefore
    requires !OnServer(onDevice[i], remote) ==>
               formsAfter == RemoveId(formsBefore, onDevice[i].id) && callsAfter == callsBefore + [DeleteForm(onDevice[i].id)]
    ensures formsAfter == Kept(onDevice[..i + 1], remote) + onDevice[i + 1..]
    ensures callsAfter == calls0 + DeleteCalls(Stale(onDevice[..i + 1], remote))
  {
    DeletePhaseStep(onDevice, i, remote);
    SeqAssoc(calls0, DeleteCalls(Stale(onDevice[..i], remote)), [DeleteForm(onDevice[i].id)]);
  }

  lemma PrefixStep(onDevice: seq<Form>, i: nat, remote: seq<RemoteForm>)
    requires i < |onDevice|
    ensures var f := onDevice[i];
            && Kept(onDevice[..i + 1], remote) == Kept(onDevice[..i], remote) + (if OnServer(f, remote) then [f] else [])
            && Stale(onDevice[..i + 1], remote) == Stale(onDevice[..i], remote) + (if OnServer(f, remote) then [] else [f])
            && onDevice[i..] == [f] + onDevice[i + 1..]
  {
    assert onDevice[..i + 1][..i] == onDevice[..i];
  }

  lemma DeleteCallsSnoc(forms: seq<Form>, f: Form)
    ensures DeleteCalls(forms + [f]) == DeleteCalls(forms) + [DeleteForm(f.id)]
  {
    assert (forms + [f])[..|forms|] == forms;
  }

  /** Deleting the i-th local form from the repository as it stands during
      the delete phase removes exactly that form. */
  lemma DeleteStep(onDevice: seq<Form>, i: nat, remote: seq<RemoteForm>)
    requires DistinctIds(onDevice) && i < |onDevice|
    ensures RemoveId(Kept(onDevice[..i], remote) + onDevice[i..], onDevice[i].id)
            == Kept(onDevice[..i], remote) + onDevice[i + 1..]
  {
    OtherIdsDiffer(onDevice, i, remote);
    assert onDevice[i..] == [onDevice[i]] + onDevice[i + 1..];
    RemoveFromMiddle(Kept(onDevice[..i], remote), onDevice[i], onDevice[i + 1..]);
  }

  lemma RemoveFromMiddle(kept: seq<Form>, f: Form, rest: seq<Form>)
    requires forall g :: g in kept ==> g.id != f.id
    requires forall g :: g in rest ==> g.id != f.id
    ensures RemoveId(kept + ([f] + rest), f.id) == kept + rest
  {
    RemoveIdAppend(kept, [f] + rest, f.id);
    RemoveIdAppend([f], rest, f.id);
    forall k | 0 <= k < |kept| ensures kept[k].id != f.id {
      assert kept[k] in kept;
    }
    forall k | 0 <= k < |rest| ensures rest[k].id != f.id {
      assert rest[k] in rest;
    }
    RemoveIdAbsent(kept, f.id);
    RemoveIdAbsent(rest, f.id);
    assert RemoveId([f], f.id) == [] by {
      assert [f][..0] == [];
    }
  }

  lemma OtherIdsDiffer(onDevice: seq<Form>, i: nat, remote: seq<RemoteForm>)
    requires DistinctIds(onDevice) && i < |onDevice|
    ensures forall g :: g in Kept(onDevice[..i], remote) ==> g.id != onDevice[i].id
    ensures forall g :: g in onDevice[i + 1..] ==> g.id != onDevice[i].id
  {
    PartitionMembers(onDevice[..i], remote);
    forall g | g in Kept(onDevice[..i], remote) ensures g.id != onDevice[i].id {
      var j :| 0 <= j < i && onDevice[j] == g;
    }
    forall g | g in onDevice[i + 1..] ensures g.id != onDevice[i].id {
      var j :| i + 1 <= j < |onDevice| && onDevice[j] == g;
    }
  }

  /** One iteration of the download loop, in terms of the loop's state
      over the descriptors already visited. */
  lemma DownloadStep(remote: seq<RemoteForm>, outcomes: seq<DownloadOutcome>, k: nat)
    requires |outcomes| == |remote| && k < |remote|
    requires !RunDownloads(remote[..k], outcomes[..k]).interrupted
    ensures var prev := RunDownloads(remote[..k], outcomes[..k]);
            var next := RunDownloads(remote[..k + 1], outcomes[..k + 1]);
            && (!NeedsDownload(remote[k]) ==> next == prev)
            && (NeedsDownload(remote[k]) ==>
                  && DownloadCalls(next.requested) == DownloadCalls(prev.requested) + [DownloadForm(remote[k])]
                  && next.anyFailed == (prev.anyFailed || outcomes[k] == DownloadFailed)
                  && next.interrupted == (outcomes[k] == Interrupted))
  {
    assert remote[..k + 1][..k] == remote[..k];
    assert outcomes[..k + 1][..k] == outcomes[..k];
    if NeedsDownload(remote[k]) {
      var r := RunDownloads(remote[..k], outcomes[..k]).requested + [remote[k]];
      assert r[..|r| - 1] == RunDownloads(remote[..k], outcomes[..k]).requested;
    }
  }

  /** Once the loop is interrupted, the rest of the listing changes nothing. */
  lemma {:induction false} InterruptSticks(remote: seq<RemoteForm>, outcomes: seq<DownloadOutcome>, k: nat)
    requires |outcomes| == |remote| && k <= |remote|
    requires RunDownloads(remote[..k], outcomes[..k]).interrupted
    ensures RunDownloads(remote[..|remote|], outcomes[..|remote|]) == RunDownloads(remote[..k], outcomes[..k])
    decreases |remote| - k
  {
    if k < |remote| {
      assert remote[..k + 1][..k] == remote[..k];
      assert outcomes[..k + 1][..k] == outcomes[..k];
      InterruptSticks(remote, outcomes, k + 1);
    }
  }
}
