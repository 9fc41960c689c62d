/** The background server-upload task: a cancellable loop over the selected
    instances that publishes progress and records each outcome, and the
    temporary-credential scope an external caller can set up around it. */
module UploaderTask {
  import opened Records
  import opened UploadBackend

  datatype Credentials = Credentials(username: string, password: string)

  /** The persistent credential store, keyed by destination. `None` stands
      for a destination that was never set. */
  class CredentialStore {
    var saved: map<Option<string>, Credentials>

    constructor(saved: map<Option<string>, Credentials>)
      ensures this.saved == saved
    {
      this.saved := saved;
    }

    method SaveCredentials(url: Option<string>, username: string, password: string)
      modifies this
      ensures saved == old(saved)[url := Credentials(username, password)]
    {
      saved := saved[url := Credentials(username, password)];
    }

    method ClearCredentials(url: Option<string>)
      modifies this
      ensures saved == old(saved) - {url}
    {
      saved := saved - {url};
    }
  }

  /** The store after setTemporaryCredentials: with both a custom username
      and a custom password the destination gets them, otherwise (an
      anonymous login) the destination's stored credentials are dropped. */
  function TemporarySaved(saved: map<Option<string>, Credentials>, url: Option<string>,
                          username: Option<string>, password: Option<string>): map<Option<string>, Credentials>
  {
    if username.Some? && password.Some? then saved[url := Credentials(username.value, password.value)]
    else saved - {url}
  }

  /** The store after clearTemporaryCredentials: only credentials that were
      explicitly set are removed. */
  function TemporaryCleared(saved: map<Option<string>, Credentials>, url: Option<string>,
                            username: Option<string>, password: Option<string>): map<Option<string>, Credentials>
  {
    if username.Some? && password.Some? then saved - {url} else saved
  }

  /** After setting and then clearing temporary credentials for one
      destination, that destination has none and every other destination
      keeps what it had. */
  lemma CredentialScope(saved: map<Option<string>, Credentials>, url: Option<string>,
                        username: Option<string>, password: Option<string>)
    ensures var during := TemporarySaved(saved, url, username, password);
            && (username.Some? && password.Some? ==> during[url] == Credentials(username.value, password.value))
            && (username.None? || password.None? ==> url !in during)
            && TemporaryCleared(during, url, username, password) == saved - {url}
  {
  }

  /** Progress published before an instance is processed: `done` of `total`. */
  datatype Progress = Progress(done: nat, total: nat)

  /** The arguments of a URL-resolution call: the instance and the explicit
      destination override. */
  datatype UrlResolution = UrlResolution(instanceId: int, completeDestinationUrl: Option<string>)

  /** The task's result: messages keyed by instance id, and the server that
      last challenged for authentication, if any. */
  datatype Outcome = Outcome(messagesByInstanceId: map<int, string>, authRequestingServer: Option<string>)

  /** The backend challenged for authentication during the upload. */
  predicate AuthChallenge(resp: Response) {
    resp.url.Resolved? && resp.upload.AuthRequested?
  }

  /** The message recorded for an instance whose attempt was not an auth
      challenge: the URL failure, the custom or default success message, or
      the upload failure. */
  function RecordedMessage(resp: Response, texts: Texts): string
    requires !AuthChallenge(resp)
  {
    match resp.url
    case UrlRejected(m) => m
    case Resolved(_) =>
      match resp.upload
      case Uploaded(custom) => SuccessMessage(custom, texts)
      case UploadFailed(m) => m
  }

  /** One iteration of the upload loop. */
  function TaskStep(outcome: Outcome, inst: Instance, resp: Response, texts: Texts): Outcome {
    if AuthChallenge(resp) then outcome.(authRequestingServer := Some(resp.upload.server))
    else outcome.(messagesByInstanceId := outcome.messagesByInstanceId[inst.id := RecordedMessage(resp, texts)])
  }

  /** The outcome after processing all of `items`, none cancelled. */
  function TaskRun(items: seq<Instance>, responses: seq<Response>, texts: Texts): Outcome
    requires |responses| == |items|
  {
    if |items| == 0 then Outcome(map[], None)
    else
      var n := |items| - 1;
      TaskStep(TaskRun(items[..n], responses[..n], texts), items[n], responses[n], texts)
  }

  /** The index of the first iteration that sees the task cancelled, or the
      number of iterations when none does. */
  function FirstCancelled(cancelled: seq<bool>): (k: nat)
    ensures k <= |cancelled|
    ensures forall j :: 0 <= j < k ==> !cancelled[j]
    ensures k < |cancelled| ==> cancelled[k]
  {
    if |cancelled| == 0 then 0
    else if cancelled[0] then 0
    else 1 + FirstCancelled(cancelled[1..])
  }

  /** An instance has an entry iff one of its attempts was not an auth
      challenge: the challenged instance is left out so it is retried. */
  lemma {:induction false} TaskEntries(items: seq<Instance>, responses: seq<Response>, texts: Texts)
    requires |responses| == |items|
    ensures forall id :: id in TaskRun(items, responses, texts).messagesByInstanceId <==>
              exists k :: 0 <= k < |items| && items[k].id == id && !AuthChallenge(responses[k])
  {
    if |items| > 0 {
      var n := |items| - 1;
      TaskEntries(items[..n], responses[..n], texts);
      forall id
        ensures id in TaskRun(items, responses, texts).messagesByInstanceId <==>
                exists k :: 0 <= k < |items| && items[k].id == id && !AuthChallenge(responses[k])
      {
        if exists k :: 0 <= k < |items| && items[k].id == id && !AuthChallenge(responses[k]) {
          var k :| 0 <= k < |items| && items[k].id == id && !AuthChallenge(responses[k]);
          if k < n {
            assert items[..n][k] == items[k] && responses[..n][k] == responses[k];
          }
        }
        if id in TaskRun(items[..n], responses[..n], texts).messagesByInstanceId {
          var k :| 0 <= k < n && items[..n][k].id == id && !AuthChallenge(responses[..n][k]);
          assert items[..n][k] == items[k] && responses[..n][k] == responses[k];
        }
      }
    }
  }

  /** The entry for an instance is the message of its last attempt that was
      not an auth challenge. */
  lemma {:induction false} TaskLastMessageWins(items: seq<Instance>, responses: seq<Response>, texts: Texts, k: nat)
    requires |responses| == |items| && k < |items| && !AuthChallenge(responses[k])
    requires forall j :: k < j < |items| && items[j].id == items[k].id ==> AuthChallenge(responses[j])
    ensures items[k].id in TaskRun(items, responses, texts).messagesByInstanceId
    ensures TaskRun(items, responses, texts).messagesByInstanceId[items[k].id] == RecordedMessage(responses[k], texts)
  {
    var n := |items| - 1;
    if k < n {
      TaskLastMessageWins(items[..n], responses[..n], texts, k);
    }
  }

  /** `k` is the last attempt that drew an auth challenge. */
  predicate LastChallenge(responses: seq<Response>, k: int) {
    0 <= k < |responses| && AuthChallenge(responses[k])
    && forall j :: k < j < |responses| ==> !AuthChallenge(responses[j])
  }

  predicate NoChallenge(responses: seq<Response>) {
    forall k :: 0 <= k < |responses| ==> !AuthChallenge(responses[k])
  }

  /** The reported server is the one named by the last auth challenge;
      without any challenge none is reported. */
  lemma {:induction false} AuthServerIsLast(items: seq<Instance>, responses: seq<Response>, texts: Texts)
    requires |responses| == |items|
    ensures var server := TaskRun(items, responses, texts).authRequestingServer;
            && (server.None? <==> NoChallenge(responses))
            && (server.Some? ==> exists k :: LastChallenge(responses, k) && responses[k].upload.server == server.value)
  {
    if |items| > 0 {
      var n := |items| - 1;
      AuthServerIsLast(items[..n], responses[..n], texts);
      var server := TaskRun(items[..n], responses[..n], texts).authRequestingServer;
      if AuthChallenge(responses[n]) {
        assert LastChallenge(responses, n);
      } else if server.Some? {
        var k :| LastChallenge(responses[..n], k) && responses[..n][k].upload.server == server.value;
        ChallengeExtends(responses, k);
      } else {
        NoChallengeExtends(responses);
      }
    }
  }

  lemma ChallengeExtends(responses: seq<Response>, k: int)
    requires |responses| > 0 && !AuthChallenge(responses[|responses| - 1])
    requires LastChallenge(responses[..|responses| - 1], k)
    ensures LastChallenge(responses, k) && responses[..|responses| - 1][k] == responses[k]
  {
    var pre := responses[..|responses| - 1];
    assert forall j :: 0 <= j < |pre| ==> pre[j] == responses[j];
  }

  lemma NoChallengeExtends(responses: seq<Response>)
    requires |responses| > 0
    ensures NoChallenge(responses) <==>
              NoChallenge(responses[..|responses| - 1]) && !AuthChallenge(responses[|responses| - 1])
  {
    var pre := responses[..|responses| - 1];
    assert forall j :: 0 <= j < |pre| ==> pre[j] == responses[j];
  }

  /** The server-upload task with its custom destination and credentials. */
  class InstanceServerUploaderTask {
    const store: CredentialStore
    var completeDestinationUrl: Option<string>
    var customUsername: Option<string>
    var customPassword: Option<string>

    constructor(store: CredentialStore)
      ensures this.store == store
      ensures completeDestinationUrl.None? && customUsername.None? && customPassword.None?
    {
      this.store := store;
      completeDestinationUrl, customUsername, customPassword := None, None, None;
    }

    /** setTemporaryCredentials */
    method SetTemporaryCredentials()
      modifies store
      ensures store.saved == TemporarySaved(old(store.saved), completeDestinationUrl, customUsername, customPassword)
    {
      if customUsername.Some? && customPassword.Some? {
        store.SaveCredentials(completeDestinationUrl, customUsername.value, customPassword.value);
      } else {
        store.ClearCredentials(completeDestinationUrl);
      }
    }

    /** clearTemporaryCredentials */
    method ClearTemporaryCredentials()
      modifies store
      ensures store.saved == TemporaryCleared(old(store.saved), completeDestinationUrl, customUsername, customPassword)
    {
      if customUsername.Some? && customPassword.Some? {
        store.ClearCredentials(completeDestinationUrl);
      }
    }

    /** The one-argument setCompleteDestinationUrl: clears the previous
        configuration. */
    method SetCompleteDestinationUrl(url: Option<string>)
      modifies this, store
      ensures completeDestinationUrl == url
      ensures customUsername == old(customUsername) && customPassword == old(customPassword)
      ensures store.saved == TemporarySaved(old(store.saved), url, customUsername, customPassword)
    {
      SetCompleteDestinationUrlWithConfig(url, true);
    }

    /** The two-argument setCompleteDestinationUrl: the credential store is
        only touched when `clearPreviousConfig` holds. */
    method SetCompleteDestinationUrlWithConfig(url: Option<string>, clearPreviousConfig: bool)
      modifies this, store
      ensures completeDestinationUrl == url
      ensures customUsername == old(customUsername) && customPassword == old(customPassword)
      ensures store.saved == if clearPreviousConfig
                             then TemporarySaved(old(store.saved), url, customUsername, customPassword)
                             else old(store.saved)
    {
      completeDestinationUrl := url;
      if clearPreviousConfig {
        SetTemporaryCredentials();
      }
    }

    method SetCustomUsername(username: Option<string>)
      modifies this, store
      ensures customUsername == username
      ensures completeDestinationUrl == old(completeDestinationUrl) && customPassword == old(customPassword)
      ensures store.saved == TemporarySaved(old(store.saved), completeDestinationUrl, username, customPassword)
    {
      customUsername := username;
      SetTemporaryCredentials();
    }

    method SetCustomPassword(password: Option<string>)
      modifies this, store
      ensures customPassword == password
      ensures completeDestinationUrl == old(completeDestinationUrl) && customUsername == old(customUsername)
      ensures store.saved == TemporarySaved(old(store.saved), completeDestinationUrl, customUsername, password)
    {
      customPassword := password;
      SetTemporaryCredentials();
    }

    /** onPostExecute: the temporary credentials end with the task. */
    method OnPostExecute(outcome: Outcome)
      modifies store
      ensures store.saved == TemporaryCleared(old(store.saved), completeDestinationUrl, customUsername, customPassword)
    {
      ClearTemporaryCredentials();
    }

    /** onCancelled: same clean-up as after a completed run. */
    method OnCancelled()
      modifies store
      ensures store.saved == TemporaryCleared(old(store.saved), completeDestinationUrl, customUsername, customPassword)
    {
      ClearTemporaryCredentials();
    }

    /** doInBackground: `cancelled[i]` is what isCancelled() answers at the
        start of iteration i, `responses[i]` what the backend answers for
        `instances[i]`. Returns the outcome, the published progress and the
        URL-resolution requests made. */
    method DoInBackground(instances: seq<Instance>, cancelled: seq<bool>, responses: seq<Response>, texts: Texts)
      returns (outcome: Outcome, progress: seq<Progress>, urlRequests: seq<UrlResolution>)
      requires |cancelled| == |instances| && |responses| == |instances|
      ensures var k := FirstCancelled(cancelled);
              outcome == TaskRun(instances[..k], responses[..k], texts)
      ensures |progress| == FirstCancelled(cancelled)
      ensures forall j :: 0 <= j < |progress| ==> progress[j] == Progress(j + 1, |instances|)
      ensures |urlRequests| == FirstCancelled(cancelled)
      ensures forall j :: 0 <= j < |urlRequests| ==>
                urlRequests[j] == UrlResolution(instances[j].id, completeDestinationUrl)
    {
      outcome := Outcome(map[], None);
      progress, urlRequests := [], [];
      for i := 0 to |instances|
        invariant forall j :: 0 <= j < i ==> !cancelled[j]
        invariant outcome == TaskRun(instances[..i], responses[..i], texts)
        invariant |progress| == i && forall j :: 0 <= j < i ==> progress[j] == Progress(j + 1, |instances|)
        invariant |urlRequests| == i && forall j :: 0 <= j < i ==>
                    urlRequests[j] == UrlResolution(instances[j].id, completeDestinationUrl)
      {
        if cancelled[i] {
          return;
        }
        var instance := instances[i];
        progress := progress + [Progress(i + 1, |instances|)];
        urlRequests := urlRequests + [UrlResolution(instance.id, completeDestinationUrl)];
        assert instances[..i + 1][..i] == instances[..i];
        assert responses[..i + 1][..i] == responses[..i];
        match responses[i].url {
          case UrlRejected(message) =>
            outcome := outcome.(messagesByInstanceId := outcome.messagesByInstanceId[instance.id := message]);
          case Resolved(destinationUrl) =>
            match responses[i].upload {
              case Uploaded(customMessage) =>
                var message := if customMessage.Some? then customMessage.value else texts.success;
                outcome := outcome.(messagesByInstanceId := outcome.messagesByInstanceId[instance.id := message]);
              case AuthRequested(server, _) =>
                outcome := outcome.(authRequestingServer := Some(server));
              case UploadFailed(message) =>
                outcome := outcome.(messagesByInstanceId := outcome.messagesByInstanceId[instance.id := message]);
            }
        }
      }
      assert instances[..|instances|] == instances;
      assert responses[..|instances|] == responses;
    }
  }

  /** A caller's credential scope: destination, then username, then
      password, then the task completes. While the task runs the store holds
      the custom credentials for the destination; afterwards that
      destination has none and every other destination is as before. */
  method CredentialSession(store: CredentialStore, url: string, username: string, password: string)
    returns (during: map<Option<string>, Credentials>)
    modifies store
    ensures Some(url) in during && during[Some(url)] == Credentials(username, password)
    ensures store.saved == old(store.saved) - {Some(url)}
  {
    var task := new InstanceServerUploaderTask(store);
    task.SetCompleteDestinationUrl(Some(url));
    task.SetCustomUsername(Some(username));
    task.SetCustomPassword(Some(password));
    during := store.saved;
    task.OnPostExecute(Outcome(map[], None));
  }
}
