/** The submission batch uploader: pre-flight checks, then one upload
    attempt per selected instance, in list order, with every outcome
    recorded in a map keyed by instance id and deletion after a confirmed
    upload when the form or the app asks for it. Also the auto-send
    selection that feeds it. */
module Submission {
  import opened Records
  import opened UploadBackend

  /** The configured protocol: the spreadsheet backend, or any other
      value, which selects the generic server backend. */
  datatype Protocol = GoogleSheets | OpenRosaServer

  datatype SubmitError = NothingToSubmit | GoogleAccountNotSet | GoogleAccountNotPermitted

  /** submitSelectedInstances: the any-failure flag with the per-instance
      messages, or the pre-flight exception. */
  datatype SubmitResult =
    | BatchDone(anyFailure: bool, messages: map<int, string>)
    | SubmitFailed(error: SubmitError)

  /** The calls the submitter makes on the backend and the instances
      repository, in issue order. */
  datatype BackendCall = UrlRequest(id: int) | UploadRequest(id: int, url: string) | DeleteInstance(id: int)

  /** Settings, permissions and collaborator behaviour fixed for one batch.
      `isSheetsFile` is doesUrlRefersToGoogleSheetsFile. */
  datatype Config = Config(
    protocol: Protocol,
    deleteAfterSend: bool,
    accountsPermitted: bool,
    lastSelectedAccount: string,
    texts: Texts,
    isSheetsFile: string -> bool)

  /** The app-level auto-send flag: any setting but "off" enables it. */
  predicate AutoSendEnabled(setting: string) {
    setting != "off"
  }

  /** shouldFormBeSent: no matching form means no auto-send; otherwise the
      form's own flag, or the app-level flag when the form has none. */
  predicate ShouldFormBeSent(forms: seq<Form>, jrFormId: string, jrVersion: Option<string>, appAutoSend: bool)
    ensures ShouldFormBeSent(forms, jrFormId, jrVersion, appAutoSend) ==>
              exists f :: f in forms && FormMatches(f, jrFormId, jrVersion)
  {
    var form := LatestByFormIdAndVersion(forms, jrFormId, jrVersion);
    form.Some? && ResolveFlag(form.value.autoSend, appAutoSend)
  }

  /** The deletion policy applied after a confirmed upload, with the same
      shape as the auto-send rule but over the form's auto-delete flag. */
  predicate ShouldFormBeDeleted(forms: seq<Form>, jrFormId: string, jrVersion: Option<string>, appDeleteAfterSend: bool) {
    var form := LatestByFormIdAndVersion(forms, jrFormId, jrVersion);
    form.Some? && ResolveFlag(form.value.autoDelete, appDeleteAfterSend)
  }

  /** The auto-send rule as its documentation phrases it: a form is sent if
      auto-send is on at the app level and the form does not override it,
      or if the form itself turns it on; never when no form matches. */
  lemma AutoSendRule(forms: seq<Form>, jrFormId: string, jrVersion: Option<string>, appAutoSend: bool)
    ensures (forall f :: f in forms ==> !FormMatches(f, jrFormId, jrVersion)) ==>
              !ShouldFormBeSent(forms, jrFormId, jrVersion, appAutoSend)
    ensures ShouldFormBeSent(forms, jrFormId, jrVersion, appAutoSend) ==>
              exists f :: f in forms && FormMatches(f, jrFormId, jrVersion)
    ensures var form := LatestByFormIdAndVersion(forms, jrFormId, jrVersion);
            form.Some? ==>
              (ShouldFormBeSent(forms, jrFormId, jrVersion, appAutoSend) <==>
                 (appAutoSend && form.value.autoSend.None?)
                 || (form.value.autoSend.Some? && BooleanValueOf(form.value.autoSend.value)))
  {
  }

  predicate Pending(s: InstanceStatus) {
    s == Complete || s == SubmissionFailed
  }

  /** The instances repository's getAllByStatus(Complete, SubmissionFailed). */
  function AllPending(instances: seq<Instance>): seq<Instance> {
    if |instances| == 0 then []
    else
      var n := |instances| - 1;
      AllPending(instances[..n]) + (if Pending(instances[n].status) then [instances[n]] else [])
  }

  /** The candidates whose form is eligible for auto-send, in order. */
  function AutoSendSelection(candidates: seq<Instance>, forms: seq<Form>, appAutoSend: bool): seq<Instance> {
    if |candidates| == 0 then []
    else
      var n := |candidates| - 1;
      var c := candidates[n];
      AutoSendSelection(candidates[..n], forms, appAutoSend)
        + (if ShouldFormBeSent(forms, c.jrFormId, c.jrVersion, appAutoSend) then [c] else [])
  }

  /** An instance is chosen for auto-send iff it is in the repository,
      Complete or SubmissionFailed, and its form is eligible. */
  lemma AutoSendMembers(instances: seq<Instance>, forms: seq<Form>, appAutoSend: bool)
    ensures forall x :: x in AutoSendSelection(AllPending(instances), forms, appAutoSend) <==>
              x in instances && Pending(x.status) && ShouldFormBeSent(forms, x.jrFormId, x.jrVersion, appAutoSend)
  {
    PendingMembers(instances);
    SelectionMembers(AllPending(instances), forms, appAutoSend);
  }

  lemma {:induction false} PendingMembers(instances: seq<Instance>)
    ensures forall x :: x in AllPending(instances) <==> x in instances && Pending(x.status)
  {
    if |instances| > 0 {
      var n := |instances| - 1;
      PendingMembers(instances[..n]);
      assert forall x :: x in instances <==> x in instances[..n] || x == instances[n];
    }
  }

  lemma {:induction false} SelectionMembers(candidates: seq<Instance>, forms: seq<Form>, appAutoSend: bool)
    ensures forall x :: x in AutoSendSelection(candidates, forms, appAutoSend) <==>
              x in candidates && ShouldFormBeSent(forms, x.jrFormId, x.jrVersion, appAutoSend)
  {
    if |candidates| > 0 {
      var n := |candidates| - 1;
      SelectionMembers(candidates[..n], forms, appAutoSend);
      assert forall x :: x in candidates <==> x in candidates[..n] || x == candidates[n];
    }
  }

  /** The validation failure that skips the upload call: with the
      spreadsheet backend, a destination that is not a spreadsheet file. */
  predicate SkippedBySheetsCheck(cfg: Config, url: string) {
    cfg.protocol == GoogleSheets && !cfg.isSheetsFile(url)
  }

  /** The backend confirmed the upload: the URL resolved, passed the
      spreadsheet check, and the upload call returned normally. */
  predicate UploadConfirmed(cfg: Config, resp: Response) {
    resp.url.Resolved? && !SkippedBySheetsCheck(cfg, resp.url.url) && resp.upload.Uploaded?
  }

  /** The instance is deleted after this attempt: its upload was confirmed
      and the deletion policy holds for its form. */
  predicate StepDeletes(cfg: Config, forms: seq<Form>, inst: Instance, resp: Response) {
    UploadConfirmed(cfg, resp) && ShouldFormBeDeleted(forms, inst.jrFormId, inst.jrVersion, cfg.deleteAfterSend)
  }

  /** What one iteration of the batch loop records and calls. */
  datatype Step = Step(message: string, failed: bool, calls: seq<BackendCall>)

  /** One iteration of the batch loop for `inst`, the backend answering `resp`. */
  function SubmitOne(cfg: Config, forms: seq<Form>, inst: Instance, resp: Response): (step: Step)
    ensures 0 < |step.calls| <= 3 && step.calls[0] == UrlRequest(inst.id)
    ensures forall j :: 0 <= j < |step.calls| ==> step.calls[j].id == inst.id
  {
    match resp.url
    case UrlRejected(m) => Step(m, true, [UrlRequest(inst.id)])
    case Resolved(url) =>
      if SkippedBySheetsCheck(cfg, url) then
        Step(cfg.texts.spreadsheetUploadedToGoogleDrive, true, [UrlRequest(inst.id)])
      else
        var attempted := [UrlRequest(inst.id), UploadRequest(inst.id, url)];
        match resp.upload
        case Uploaded(custom) =>
          Step(SuccessMessage(custom, cfg.texts), false,
               attempted + if ShouldFormBeDeleted(forms, inst.jrFormId, inst.jrVersion, cfg.deleteAfterSend)
                           then [DeleteInstance(inst.id)] else [])
        case UploadFailed(m) => Step(m, true, attempted)
        // UploadAuthRequestedException is an UploadException: same handling
        case AuthRequested(_, m) => Step(m, true, attempted)
  }

  /** One instance's attempt: it counts as a failure iff the upload was not
      confirmed; the upload call is made iff the URL resolved and passed the
      spreadsheet check; a skipped instance records the fixed spreadsheet
      message, a confirmed one the success message, and a URL rejection or a
      failed upload the exception's display message; and it is deleted only
      after a confirmed upload. */
  lemma StepOutcomes(cfg: Config, forms: seq<Form>, inst: Instance, resp: Response)
    ensures var step := SubmitOne(cfg, forms, inst, resp);
            && (step.failed <==> !UploadConfirmed(cfg, resp))
            && ((exists url :: UploadRequest(inst.id, url) in step.calls) <==>
                  resp.url.Resolved? && !SkippedBySheetsCheck(cfg, resp.url.url))
            && (resp.url.Resolved? && SkippedBySheetsCheck(cfg, resp.url.url) ==>
                  step.message == cfg.texts.spreadsheetUploadedToGoogleDrive && step.calls == [UrlRequest(inst.id)])
            && (UploadConfirmed(cfg, resp) ==> step.message == SuccessMessage(resp.upload.customMessage, cfg.texts))
            && (resp.url.UrlRejected? ==>
                  step.message == resp.url.displayMessage && step.calls == [UrlRequest(inst.id)])
            && (resp.url.Resolved? && !SkippedBySheetsCheck(cfg, resp.url.url) && !resp.upload.Uploaded? ==>
                  step.message == resp.upload.displayMessage)
            && (DeleteInstance(inst.id) in step.calls <==>
                  UploadConfirmed(cfg, resp) && ShouldFormBeDeleted(forms, inst.jrFormId, inst.jrVersion, cfg.deleteAfterSend))
  {
    var step := SubmitOne(cfg, forms, inst, resp);
    if resp.url.Resolved? && !SkippedBySheetsCheck(cfg, resp.url.url) {
      assert step.calls[1] == UploadRequest(inst.id, resp.url.url);
    }
  }

  /** The state of the batch loop: the result map, the any-failure flag and
      the calls made so far. */
  datatype Batch = Batch(messages: map<int, string>, anyFailure: bool, calls: seq<BackendCall>)

  function SubmitAll(cfg: Config, forms: seq<Form>, items: seq<Instance>, responses: seq<Response>): Batch
    requires |responses| == |items|
  {
    if |items| == 0 then Batch(map[], false, [])
    else
      var n := |items| - 1;
      var prev := SubmitAll(cfg, forms, items[..n], responses[..n]);
      var step := SubmitOne(cfg, forms, items[n], responses[n]);
      Batch(prev.messages[items[n].id := step.message], prev.anyFailure || step.failed, prev.calls + step.calls)
  }

  /** The pre-flight checks, in the order they are made. */
  function Preflight(cfg: Config, toUpload: seq<Instance>): (r: Option<SubmitError>)
    ensures r == Some(NothingToSubmit) <==> |toUpload| == 0
    ensures r.None? <==>
              |toUpload| > 0 && (cfg.protocol == GoogleSheets ==> cfg.accountsPermitted && cfg.lastSelectedAccount != "")
  {
    if |toUpload| == 0 then Some(NothingToSubmit)
    else if cfg.protocol == GoogleSheets && !cfg.accountsPermitted then Some(GoogleAccountNotPermitted)
    else if cfg.protocol == GoogleSheets && cfg.lastSelectedAccount == "" then Some(GoogleAccountNotSet)
    else None
  }

  /** The ids of the instances the calls delete. */
  function DeletedIds(calls: seq<BackendCall>): set<int> {
    set c | c in calls && c.DeleteInstance? :: c.id
  }

  /** The instances repository after deleting every instance whose id is in `ids`. */
  function RemoveInstances(instances: seq<Instance>, ids: set<int>): seq<Instance> {
    if |instances| == 0 then []
    else
      var n := |instances| - 1;
      RemoveInstances(instances[..n], ids) + (if instances[n].id in ids then [] else [instances[n]])
  }

  lemma {:induction false} RemoveInstancesTwice(s: seq<Instance>, a: set<int>, b: set<int>)
    ensures RemoveInstances(RemoveInstances(s, a), b) == RemoveInstances(s, a + b)
  {
    if |s| > 0 {
      var n := |s| - 1;
      RemoveInstancesTwice(s[..n], a, b);
      var pre := RemoveInstances(s[..n], a);
      if s[n].id !in a {
        var t := pre + [s[n]];
        assert RemoveInstances(s, a) == t;
        assert t[..|t| - 1] == pre && t[|t| - 1] == s[n];
        assert RemoveInstances(t, b) == RemoveInstances(pre, b) + (if s[n].id in b then [] else [s[n]]);
      } else {
        assert RemoveInstances(s, a) == pre + [];
        assert pre + [] == pre;
      }
    }
  }

  /** Every selected instance ends with exactly one entry in the result map. */
  lemma {:induction false} EveryInstanceHasAnEntry(cfg: Config, forms: seq<Form>, items: seq<Instance>, responses: seq<Response>)
    requires |responses| == |items|
    ensures SubmitAll(cfg, forms, items, responses).messages.Keys == InstanceIds(items)
  {
    if |items| > 0 {
      var n := |items| - 1;
      EveryInstanceHasAnEntry(cfg, forms, items[..n], responses[..n]);
      InstanceIdsSnoc(items);
    }
  }

  /** The entry for an id is the outcome of its last occurrence in the list. */
  lemma {:induction false} LastWriteWins(cfg: Config, forms: seq<Form>, items: seq<Instance>, responses: seq<Response>, k: nat)
    requires |responses| == |items| && k < |items|
    requires forall j :: k < j < |items| ==> items[j].id != items[k].id
    ensures items[k].id in SubmitAll(cfg, forms, items, responses).messages
    ensures SubmitAll(cfg, forms, items, responses).messages[items[k].id]
            == SubmitOne(cfg, forms, items[k], responses[k]).message
  {
    var n := |items| - 1;
    if k < n {
      LastWriteWins(cfg, forms, items[..n], responses[..n], k);
    }
  }

  /** The returned flag is set iff some instance failed validation, failed
      URL resolution or failed its upload. */
  lemma {:induction false} AnyFailureIff(cfg: Config, forms: seq<Form>, items: seq<Instance>, responses: seq<Response>)
    requires |responses| == |items|
    ensures SubmitAll(cfg, forms, items, responses).anyFailure <==>
              exists k :: 0 <= k < |items| && !UploadConfirmed(cfg, responses[k])
  {
    if |items| > 0 {
      var n := |items| - 1;
      AnyFailureIff(cfg, forms, items[..n], responses[..n]);
      var step := SubmitOne(cfg, forms, items[n], responses[n]);
      assert step.failed <==> !UploadConfirmed(cfg, responses[n]);
      if exists k :: 0 <= k < n && !UploadConfirmed(cfg, responses[..n][k]) {
        var k :| 0 <= k < n && !UploadConfirmed(cfg, responses[..n][k]);
        assert responses[..n][k] == responses[k];
      }
      if exists k :: 0 <= k < |items| && !UploadConfirmed(cfg, responses[k]) {
        var k :| 0 <= k < |items| && !UploadConfirmed(cfg, responses[k]);
        if k < n {
          assert responses[..n][k] == responses[k];
        }
      }
    }
  }

  /** An instance is deleted iff one of its occurrences had a confirmed
      upload and the deletion policy holds for its form. */
  lemma {:induction false} DeletedIffConfirmedAndPolicy(cfg: Config, forms: seq<Form>, items: seq<Instance>, responses: seq<Response>)
    requires |responses| == |items|
    ensures forall id :: id in DeletedIds(SubmitAll(cfg, forms, items, responses).calls) <==>
              exists k :: 0 <= k < |items| && items[k].id == id && StepDeletes(cfg, forms, items[k], responses[k])
  {
    if |items| > 0 {
      var n := |items| - 1;
      DeletedIffConfirmedAndPolicy(cfg, forms, items[..n], responses[..n]);
      var prev := SubmitAll(cfg, forms, items[..n], responses[..n]).calls;
      var step := SubmitOne(cfg, forms, items[n], responses[n]).calls;
      assert SubmitAll(cfg, forms, items, responses).calls == prev + step;
      DeletedIdsAppend(prev, step);
      DeletedIdsOfStep(cfg, forms, items[n], responses[n]);
      forall id
        ensures id in DeletedIds(prev + step) <==>
                exists k :: 0 <= k < |items| && items[k].id == id && StepDeletes(cfg, forms, items[k], responses[k])
      {
        if exists k :: 0 <= k < |items| && items[k].id == id && StepDeletes(cfg, forms, items[k], responses[k]) {
          var k :| 0 <= k < |items| && items[k].id == id && StepDeletes(cfg, forms, items[k], responses[k]);
          if k < n {
            assert items[..n][k] == items[k] && responses[..n][k] == responses[k];
          }
        }
        if id in DeletedIds(prev) {
          var k :| 0 <= k < n && items[..n][k].id == id && StepDeletes(cfg, forms, items[..n][k], responses[..n][k]);
          assert items[..n][k] == items[k] && responses[..n][k] == responses[k];
        }
      }
    }
  }

  predicate DeletesFollowUploads(calls: seq<BackendCall>) {
    forall j :: 0 <= j < |calls| && calls[j].DeleteInstance? ==>
      0 < j && calls[j - 1].UploadRequest? && calls[j - 1].id == calls[j].id
  }

  /** Every deletion is issued right after the upload call for that same
      instance: nothing is deleted unless an upload was just made. */
  lemma {:induction false} DeleteFollowsUpload(cfg: Config, forms: seq<Form>, items: seq<Instance>, responses: seq<Response>)
    requires |responses| == |items|
    ensures DeletesFollowUploads(SubmitAll(cfg, forms, items, responses).calls)
  {
    if |items| > 0 {
      var n := |items| - 1;
      DeleteFollowsUpload(cfg, forms, items[..n], responses[..n]);
      var prev := SubmitAll(cfg, forms, items[..n], responses[..n]).calls;
      var step := SubmitOne(cfg, forms, items[n], responses[n]).calls;
      assert SubmitAll(cfg, forms, items, responses).calls == prev + step;
      StepShape(cfg, forms, items[n], responses[n]);
      DeletesFollowUploadsAppend(prev, step);
    }
  }

  lemma DeletesFollowUploadsAppend(a: seq<BackendCall>, b: seq<BackendCall>)
    requires DeletesFollowUploads(a) && DeletesFollowUploads(b)
    requires |b| > 0 ==> !b[0].DeleteInstance?
    ensures DeletesFollowUploads(a + b)
  {
    var c := a + b;
    forall j | 0 <= j < |c| && c[j].DeleteInstance?
      ensures 0 < j && c[j - 1].UploadRequest? && c[j - 1].id == c[j].id
    {
      if j < |a| {
        assert c[j] == a[j] && c[j - 1] == a[j - 1];
      } else {
        assert c[j] == b[j - |a|];
        assert c[j - 1] == b[j - 1 - |a|];
      }
    }
  }

  /** Within one step, a deletion directly follows the upload call for the
      same instance, and the step does not open with a deletion. */
  lemma StepShape(cfg: Config, forms: seq<Form>, inst: Instance, resp: Response)
    ensures var step := SubmitOne(cfg, forms, inst, resp).calls;
            DeletesFollowUploads(step) && |step| > 0 && !step[0].DeleteInstance?
  {
  }

  /** With the spreadsheet backend, the upload call is only ever made to a
      destination that passed the spreadsheet check. */
  lemma {:induction false} UploadsPassValidation(cfg: Config, forms: seq<Form>, items: seq<Instance>, responses: seq<Response>)
    requires |responses| == |items|
    ensures forall c :: c in SubmitAll(cfg, forms, items, responses).calls && c.UploadRequest? ==>
              !SkippedBySheetsCheck(cfg, c.url)
  {
    if |items| > 0 {
      var n := |items| - 1;
      UploadsPassValidation(cfg, forms, items[..n], responses[..n]);
    }
  }

  /** The batch uploader with the repositories it reads and deletes from. */
  class InstanceSubmitter {
    const forms: seq<Form>
    const config: Config
    const autoSendSetting: string
    var instances: seq<Instance>
    var calls: seq<BackendCall>

    constructor(forms: seq<Form>, instances: seq<Instance>, config: Config, autoSendSetting: string)
      ensures this.forms == forms && this.instances == instances && this.config == config
      ensures this.autoSendSetting == autoSendSetting && calls == []
    {
      this.forms, this.instances, this.config := forms, instances, config;
      this.autoSendSetting := autoSendSetting;
      calls := [];
    }

    /** InstanceDeleter.delete: the instance leaves the repository. */
    method Delete(id: int)
      modifies this
      ensures instances == RemoveInstances(old(instances), {id})
      ensures calls == old(calls) + [DeleteInstance(id)]
    {
      instances := RemoveInstances(instances, {id});
      calls := calls + [DeleteInstance(id)];
    }

    /** getInstancesToAutoSend: the pending instances whose form is eligible,
        in repository order. */
    method GetInstancesToAutoSend(appAutoSend: bool) returns (toUpload: seq<Instance>)
      ensures toUpload == AutoSendSelection(AllPending(instances), forms, appAutoSend)
      ensures forall x :: x in toUpload <==>
                x in instances && Pending(x.status) && ShouldFormBeSent(forms, x.jrFormId, x.jrVersion, appAutoSend)
    {
      var candidates := AllPending(instances);
      toUpload := [];
      for i := 0 to |candidates|
        invariant toUpload == AutoSendSelection(candidates[..i], forms, appAutoSend)
      {
        assert candidates[..i + 1][..i] == candidates[..i];
        var instance := candidates[i];
        if ShouldFormBeSent(forms, instance.jrFormId, instance.jrVersion, appAutoSend) {
          toUpload := toUpload + [instance];
        }
      }
      assert candidates[..|candidates|] == candidates;
      AutoSendMembers(instances, forms, appAutoSend);
    }

    /** submitUnsubmittedInstances: auto-send selection, then the batch. */
    method SubmitUnsubmittedInstances(responses: seq<Response>) returns (r: SubmitResult)
      requires |responses| == |AutoSendSelection(AllPending(instances), forms, AutoSendEnabled(autoSendSetting))|
      modifies this
      ensures var toUpload := AutoSendSelection(AllPending(old(instances)), forms, AutoSendEnabled(autoSendSetting));
              var b := SubmitAll(config, forms, toUpload, responses);
              && (Preflight(config, toUpload).Some? ==>
                    r == SubmitFailed(Preflight(config, toUpload).value) && instances == old(instances) && calls == old(calls))
              && (Preflight(config, toUpload).None? ==>
                    && r == BatchDone(b.anyFailure, b.messages)
                    && calls == old(calls) + b.calls
                    && instances == RemoveInstances(old(instances), DeletedIds(b.calls)))
    {
      var toUpload := GetInstancesToAutoSend(AutoSendEnabled(autoSendSetting));
      r := SubmitSelectedInstances(toUpload, responses);
    }

    /** submitSelectedInstances: `responses[k]` is what the backend answers
        for `toUpload[k]`. */
    method SubmitSelectedInstances(toUpload: seq<Instance>, responses: seq<Response>) returns (r: SubmitResult)
      requires |responses| == |toUpload|
      modifies this
      ensures Preflight(config, toUpload).Some? ==>
                r == SubmitFailed(Preflight(config, toUpload).value) && instances == old(instances) && calls == old(calls)
      ensures Preflight(config, toUpload).None? ==>
                var b := SubmitAll(config, forms, toUpload, responses);
                && r == BatchDone(b.anyFailure, b.messages)
                && calls == old(calls) + b.calls
                && instances == RemoveInstances(old(instances), DeletedIds(b.calls))
    {
      if |toUpload| == 0 {
        return SubmitFailed(NothingToSubmit);
      }
      if config.protocol == GoogleSheets {
        if config.accountsPermitted {
          if config.lastSelectedAccount == "" {
            return SubmitFailed(GoogleAccountNotSet);
          }
        } else {
          return SubmitFailed(GoogleAccountNotPermitted);
        }
      }

      var resultMessagesByInstanceId: map<int, string> := map[];
      var anyFailure := false;
      ghost var calls0, instances0 := calls, instances;
      assert DeletedIds([]) == {};
      RemoveInstancesAbsent(instances, {});
      for i := 0 to |toUpload|
        invariant var b := SubmitAll(config, forms, toUpload[..i], responses[..i]);
                  && resultMessagesByInstanceId == b.messages
                  && anyFailure == b.anyFailure
                  && calls == calls0 + b.calls
                  && instances == RemoveInstances(instances0, DeletedIds(b.calls))
      {
        ghost var before, removedBefore := calls, instances;
        var message, failed := SubmitInstance(toUpload[i], responses[i]);
        resultMessagesByInstanceId := resultMessagesByInstanceId[toUpload[i].id := message];
        anyFailure := anyFailure || failed;
        BatchStep(config, forms, toUpload, responses, i, calls0, before, calls, instances0, removedBefore, instances);
        BatchPrefix(config, forms, toUpload, responses, i);
      }
      assert toUpload[..|toUpload|] == toUpload;
      assert responses[..|toUpload|] == responses;
      r := BatchDone(anyFailure, resultMessagesByInstanceId);
    }

    /** The body of the batch loop for one instance: URL resolution, the
        spreadsheet check, the upload call, and deletion after a confirmed
        upload; returns the message to record and whether it is a failure. */
    method SubmitInstance(instance: Instance, response: Response) returns (message: string, failed: bool)
      modifies this
      ensures var step := SubmitOne(config, forms, instance, response);
              && message == step.message && failed == step.failed
              && calls == old(calls) + step.calls
              && instances == if StepDeletes(config, forms, instance, response)
                              then RemoveInstances(old(instances), {instance.id}) else old(instances)
    {
      calls := calls + [UrlRequest(instance.id)];
      match response.url {
        case UrlRejected(m) =>
          return m, true;
        case Resolved(destinationUrl) =>
          if config.protocol == GoogleSheets && !config.isSheetsFile(destinationUrl) {
            return config.texts.spreadsheetUploadedToGoogleDrive, true;
          }
          calls := calls + [UploadRequest(instance.id, destinationUrl)];
          ghost var attempted := [UrlRequest(instance.id), UploadRequest(instance.id, destinationUrl)];
          SeqAssoc(old(calls), [UrlRequest(instance.id)], [UploadRequest(instance.id, destinationUrl)]);
          match response.upload {
            case Uploaded(customMessage) =>
              message, failed := SuccessMessage(customMessage, config.texts), false;
              if ShouldFormBeDeleted(forms, instance.jrFormId, instance.jrVersion, config.deleteAfterSend) {
                Delete(instance.id);
                SeqAssoc(old(calls), attempted, [DeleteInstance(instance.id)]);
              }
            case UploadFailed(m) =>
              message, failed := m, true;
            case AuthRequested(_, m) =>
              message, failed := m, true;
          }
      }
    }
  }

  /** One iteration of the batch loop extends the call log and the
      deletions by the step for the i-th instance. */
  lemma BatchStep(cfg: Config, forms: seq<Form>, items: seq<Instance>, responses: seq<Response>, i: nat,
                  calls0: seq<BackendCall>, before: seq<BackendCall>, after: seq<BackendCall>,
                  instances0: seq<Instance>, removedBefore: seq<Instance>, removedAfter: seq<Instance>)
    requires |responses| == |items| && i < |items|
    requires before == calls0 + SubmitAll(cfg, forms, items[..i], responses[..i]).calls
    requires removedBefore == RemoveInstances(instances0, DeletedIds(SubmitAll(cfg, forms, items[..i], responses[..i]).calls))
    requires var step := SubmitOne(cfg, forms, items[i], responses[i]);
             && after == before + step.calls
             && removedAfter == if StepDeletes(cfg, forms, items[i], responses[i]) then RemoveInstances(removedBefore, {items[i].id}) else removedBefore
    ensures var b := SubmitAll(cfg, forms, items[..i + 1], responses[..i + 1]);
            && after == calls0 + b.calls
            && removedAfter == RemoveInstances(instances0, DeletedIds(b.calls))
  {
    var prev := SubmitAll(cfg, forms, items[..i], responses[..i]).calls;
    var step := SubmitOne(cfg, forms, items[i], responses[i]);
    BatchPrefix(cfg, forms, items, responses, i);
    SeqAssoc(calls0, prev, step.calls);
    DeletedIdsAppend(prev, step.calls);
    DeletedIdsOfStep(cfg, forms, items[i], responses[i]);
    if StepDeletes(cfg, forms, items[i], responses[i]) {
      RemoveInstancesTwice(instances0, DeletedIds(prev), DeletedIds(step.calls));
    } else {
      assert DeletedIds(prev) + DeletedIds(step.calls) == DeletedIds(prev);
    }
  }

  /** The batch state after i+1 instances, in terms of the state after i. */
  lemma BatchPrefix(cfg: Config, forms: seq<Form>, items: seq<Instance>, responses: seq<Response>, i: nat)
    requires |responses| == |items| && i < |items|
    ensures var prev := SubmitAll(cfg, forms, items[..i], responses[..i]);
            var step := SubmitOne(cfg, forms, items[i], responses[i]);
            SubmitAll(cfg, forms, items[..i + 1], responses[..i + 1])
            == Batch(prev.messages[items[i].id := step.message], prev.anyFailure || step.failed, prev.calls + step.calls)
  {
    assert items[..i + 1][..i] == items[..i];
    assert responses[..i + 1][..i] == responses[..i];
  }

  lemma DeletedIdsAppend(a: seq<BackendCall>, b: seq<BackendCall>)
    ensures DeletedIds(a + b) == DeletedIds(a) + DeletedIds(b)
  {
  }

  lemma DeletedIdsOfStep(cfg: Config, forms: seq<Form>, inst: Instance, resp: Response)
    ensures DeletedIds(SubmitOne(cfg, forms, inst, resp).calls) == if StepDeletes(cfg, forms, inst, resp) then {inst.id} else {}
  {
  }

  /** Removing ids that no instance carries changes nothing. */
  lemma {:induction false} RemoveInstancesAbsent(s: seq<Instance>, ids: set<int>)
    requires forall k :: 0 <= k < |s| ==> s[k].id !in ids
    ensures RemoveInstances(s, ids) == s
  {
    if |s| > 0 {
      var n := |s| - 1;
      var pre := s[..n];
      assert forall k :: 0 <= k < |pre| ==> pre[k] == s[k];
      RemoveInstancesAbsent(pre, ids);
      assert pre + [s[n]] == s;
    }
  }
}
