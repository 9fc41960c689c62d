# Form catalog reconciliation and submission batches

A Dafny model of three classes of the nexusforms Android data-collection
app (a fork of ODK Collect), with proofs of what they promise:

- **Catalog reconciler** (`ServerFormsSynchronizer.synchronize`). It fetches
  the server's form listing. It deletes every local form whose form id the
  listing no longer carries. Then it hands each new or updated descriptor to
  the downloader, in listing order. A failed download is remembered and
  reported once, as `FetchError`, after the loop. An interrupted download
  ends the run silently.
- **Batch submitter** (`InstanceSubmitter`). Its pre-flight checks come
  first: nothing to submit, the Google account not permitted, or the Google
  account not set. Then it makes one upload attempt per instance, in order.
  Each outcome goes into a map keyed by instance id, and an any-failure flag
  is kept. After a confirmed upload the instance is deleted when its form or
  the app asks for that. The class also selects the pending instances whose
  form is eligible for auto-send.
- **Background upload task** (`InstanceServerUploaderTask`). Its upload loop
  checks for cancellation at the start of each iteration and publishes
  progress `(i+1, n)`. An instance that drew an authentication challenge is
  left out of the result map, so it is retried later. The class also holds
  the temporary-credential scope that an external caller sets up with a
  custom destination, username and password.

Files:

- `records.dfy` (module `Records`): forms, instances, server descriptors,
  `Boolean.valueOf`, and the forms-repository lookup by form id and version.
- `upload_backend.dfy` (module `UploadBackend`): what the upload backend
  answers for one instance.
- `server_forms_sync.dfy` (module `ServerFormsSync`): the reconciler.
- `instance_submitter.dfy` (module `Submission`): the batch submitter.
- `uploader_task.dfy` (module `UploaderTask`): the upload task and the
  credential store.

The code that changes state is imperative Dafny:

- The forms repository, the instances repository and the credential store
  are class fields that the methods reassign.
- Each loop is a `for` or `while` loop whose invariants tie its variables to
  a specification function over the prefix processed so far
  (`RunDownloads`, `SubmitAll`, `TaskRun`, `AutoSendSelection`, `Stale`
  and `Kept`).
- The lemmas state the promised properties about those functions.

The collaborators appear only through the values they return:

- The listing is a `Listing`.
- Download outcomes and backend responses are sequences parallel to the
  input list.
- `isCancelled()` is a sequence of booleans, read once per iteration.
- The spreadsheet-URL test is a function parameter.
- Some calls are appended to a `calls` log, so their order can be stated:
  - The reconciler logs each form deletion and each download request
    (`ServerFormsSync.Call`).
  - The submitter logs each URL resolution, each upload and each instance
    deletion (`Submission.BackendCall`).
  - Repository reads (`getAll`, `getAllByStatus`,
    `getLatestByFormIdAndVersion`) are not logged. They are modelled as reads
    of the repository fields.
- The upload task keeps no log. `DoInBackground` returns the URL-resolution
  requests it makes (`UrlResolution`), one per processed instance. Its
  upload calls are represented only by the responses it consumes. The
  credential-store calls show only as the store's new contents.

Where the documented design and the code differ, the model follows the code:

- **The submitter records an authentication challenge.** Its catch of
  `UploadException` also catches the subtype `UploadAuthRequestedException`.
  So the challenge's display message is recorded and `anyFailure` is set
  (`Submission.SubmitOne`, case `AuthRequested`). Only the background task
  leaves a challenged instance out of its map.
- **A destination change does not clear the old credentials.**
  `setCompleteDestinationUrl(url, true)` assigns the new URL first, then
  saves or clears credentials for the new URL. Credentials stored for the
  previous destination stay in the store (`UploaderTask.TemporarySaved`).
- **Map keys are integers.** The result maps are keyed by
  `instance.getId().toString()`. The model keys them by the integer id,
  which is one-to-one with its decimal string.

## Model

| member | source | states |
|---|---|---|
| Records.LatestByFormIdAndVersion | collect_app/src/main/java/app/nexusforms/android/instancemanagement/InstanceSubmitter.java:169 | the lookup finds nothing iff no form in the repository has that form id and version; any form it returns is in the repository and matches both |
| ServerFormsSync.PartitionMembers | collect_app/src/main/java/app/nexusforms/android/formmanagement/matchexactly/ServerFormsSynchronizer.java:34-38 | a local form is in the deleted part iff no listed descriptor carries its form id, and in the kept part iff one does |
| ServerFormsSync.DeletesExactlyUnlisted | collect_app/src/main/java/app/nexusforms/android/formmanagement/matchexactly/ServerFormsSynchronizer.java:34-38 | with distinct repository ids, a delete call is made for a local form iff its form id is not listed, and it survives iff it is listed, whatever its version |
| ServerFormsSync.KeptDistinct | collect_app/src/main/java/app/nexusforms/android/formmanagement/matchexactly/ServerFormsSynchronizer.java:34-38 | the delete phase keeps repository ids distinct |
| ServerFormsSync.EligibleMembers | collect_app/src/main/java/app/nexusforms/android/formmanagement/matchexactly/ServerFormsSynchronizer.java:42-43 | a descriptor is among the forms to download iff it is listed and is new or updated |
| ServerFormsSync.RunDownloads | collect_app/src/main/java/app/nexusforms/android/formmanagement/matchexactly/ServerFormsSynchronizer.java:42-52 | the download loop over the listing: every eligible descriptor is handed to the downloader in listing order, a failure sets the flag, and an interruption ends the loop; only eligible descriptors are ever requested, and a failure or an interruption implies a request was made |
| ServerFormsSync.ResultOf | collect_app/src/main/java/app/nexusforms/android/formmanagement/matchexactly/ServerFormsSynchronizer.java:48-56 | the result once the loop ends: FetchError exactly when some download failed and the loop was not interrupted, normal completion otherwise |
| ServerFormsSync.FirstInterrupt | collect_app/src/main/java/app/nexusforms/android/formmanagement/matchexactly/ServerFormsSynchronizer.java:42-50 | the position of the first eligible descriptor whose download is interrupted; no earlier eligible download is interrupted |
| ServerFormsSync.InterruptedIffFirstInterrupt | collect_app/src/main/java/app/nexusforms/android/formmanagement/matchexactly/ServerFormsSynchronizer.java:48-49 | the loop reports an interruption iff some eligible download was interrupted |
| ServerFormsSync.RequestedUpToFirstInterrupt | collect_app/src/main/java/app/nexusforms/android/formmanagement/matchexactly/ServerFormsSynchronizer.java:42-52 | the downloader is asked for the eligible descriptors in listing order, up to and including the first interrupted one, and for nothing later |
| ServerFormsSync.FailedBeforeFirstInterrupt | collect_app/src/main/java/app/nexusforms/android/formmanagement/matchexactly/ServerFormsSynchronizer.java:40-47 | the failure flag is set iff an eligible download before the first interruption failed |
| ServerFormsSync.DownloadsExactlyEligible | collect_app/src/main/java/app/nexusforms/android/formmanagement/matchexactly/ServerFormsSynchronizer.java:40-52 | the three facts above together: what is downloaded, whether the loop was interrupted, and when the flag is set |
| ServerFormsSync.DownloadsIffNeeded | collect_app/src/main/java/app/nexusforms/android/formmanagement/matchexactly/ServerFormsSynchronizer.java:40-56 | without an interruption, the downloader is called for a descriptor iff it is new or updated, a failure does not stop later downloads, and `FetchError` results iff some download failed |
| ServerFormsSync.InterruptIsSilent | collect_app/src/main/java/app/nexusforms/android/formmanagement/matchexactly/ServerFormsSynchronizer.java:48-56 | after an interruption the run ends normally even if an earlier download failed, and nothing listed after the interrupted descriptor is requested |
| ServerFormsSync.DeletionsPrecedeDownloads | collect_app/src/main/java/app/nexusforms/android/formmanagement/matchexactly/ServerFormsSynchronizer.java:34-45 | in the call log, every delete call comes before every download call |
| ServerFormsSync.Synchronizer.Delete | collect_app/src/main/java/app/nexusforms/android/formmanagement/matchexactly/ServerFormsSynchronizer.java:36 | the form with that repository id leaves the repository and the delete call is logged |
| ServerFormsSync.Synchronizer.DeleteUnlisted | collect_app/src/main/java/app/nexusforms/android/formmanagement/matchexactly/ServerFormsSynchronizer.java:31-38 | the repository becomes the listed forms in their order, and one delete call per unlisted form is logged in repository order |
| ServerFormsSync.Synchronizer.DeleteIfUnlisted | collect_app/src/main/java/app/nexusforms/android/formmanagement/matchexactly/ServerFormsSynchronizer.java:33-37 | one iteration of the deletion pass: an unlisted form leaves the repository and its delete call is logged, a listed one stays |
| ServerFormsSync.Synchronizer.DownloadNeeded | collect_app/src/main/java/app/nexusforms/android/formmanagement/matchexactly/ServerFormsSynchronizer.java:40-52 | the failure and interruption flags and the download calls are those of the loop specification over the listing and the outcomes |
| ServerFormsSync.Synchronizer.Synchronize | collect_app/src/main/java/app/nexusforms/android/formmanagement/matchexactly/ServerFormsSynchronizer.java:29-57 | a failed fetch propagates with no deletion and no download; otherwise unlisted forms are deleted, then the eligible downloads are made, and the result is `FetchError` iff a download failed and none was interrupted |
| Submission.AutoSendEnabled | collect_app/src/main/java/app/nexusforms/android/instancemanagement/InstanceSubmitter.java:66 | the app-level auto-send flag: every setting other than "off" enables it |
| Submission.ShouldFormBeSent | collect_app/src/main/java/app/nexusforms/android/instancemanagement/InstanceSubmitter.java:168-174 | the latest form matching the instance's form id and version decides: its auto-send flag via Boolean.valueOf, or the app flag when it has none; sending implies some local form matches |
| Submission.AutoSendRule | collect_app/src/main/java/app/nexusforms/android/instancemanagement/InstanceSubmitter.java:157-174 | no matching form means no auto-send; otherwise a form is sent iff the app flag is on and the form does not override it, or the form's own flag reads "true" |
| Submission.AutoSendMembers | collect_app/src/main/java/app/nexusforms/android/instancemanagement/InstanceSubmitter.java:146-155 | an instance is selected for auto-send iff it is in the repository, is Complete or SubmissionFailed, and its form is eligible |
| Submission.PendingMembers | collect_app/src/main/java/app/nexusforms/android/instancemanagement/InstanceSubmitter.java:147 | the candidates are exactly the repository's instances whose status is Complete or SubmissionFailed |
| Submission.SelectionMembers | collect_app/src/main/java/app/nexusforms/android/instancemanagement/InstanceSubmitter.java:147-151 | the filter keeps exactly the candidates whose form is eligible for auto-send |
| Submission.RemoveInstancesTwice | collect_app/src/main/java/app/nexusforms/android/instancemanagement/InstanceSubmitter.java:116-118 | deleting one set of ids and then another leaves the same repository as deleting their union at once |
| Submission.SubmitOne | collect_app/src/main/java/app/nexusforms/android/instancemanagement/InstanceSubmitter.java:100-136 | one iteration of the batch loop: the recorded message, the failure flag and the calls made; every iteration starts with the URL request, makes at most three calls, and every call concerns that instance |
| Submission.StepOutcomes | collect_app/src/main/java/app/nexusforms/android/instancemanagement/InstanceSubmitter.java:101-119 | one attempt fails iff the upload is not confirmed; the upload call is made iff the URL resolved and passed the spreadsheet check; a skipped instance records the fixed spreadsheet message; a success records the custom or default message; deletion iff confirmed and the policy holds |
| Submission.Preflight | collect_app/src/main/java/app/nexusforms/android/instancemanagement/InstanceSubmitter.java:70-92 | the checks made before any upload, in source order: an empty list is NothingToSubmit; the batch proceeds exactly when the list is non-empty and, for the spreadsheet backend, the accounts permission is granted and an account is selected |
| Submission.EveryInstanceHasAnEntry | collect_app/src/main/java/app/nexusforms/android/instancemanagement/InstanceSubmitter.java:99-137 | the result map's keys are exactly the ids of the selected instances |
| Submission.LastWriteWins | collect_app/src/main/java/app/nexusforms/android/instancemanagement/InstanceSubmitter.java:99-137 | for a duplicated id, the entry is the outcome of its last occurrence |
| Submission.AnyFailureIff | collect_app/src/main/java/app/nexusforms/android/instancemanagement/InstanceSubmitter.java:80-139 | the returned flag is true iff some instance had no confirmed upload (URL failure, spreadsheet skip or upload exception) |
| Submission.DeletedIffConfirmedAndPolicy | collect_app/src/main/java/app/nexusforms/android/instancemanagement/InstanceSubmitter.java:108-119 | an instance is deleted iff it had a confirmed upload and the deletion policy holds for its form; failed and skipped instances are never deleted |
| Submission.DeleteFollowsUpload | collect_app/src/main/java/app/nexusforms/android/instancemanagement/InstanceSubmitter.java:108-119 | every delete call directly follows the upload call for the same instance |
| Submission.UploadsPassValidation | collect_app/src/main/java/app/nexusforms/android/instancemanagement/InstanceSubmitter.java:102-108 | with the spreadsheet backend, no upload call targets a URL that fails the spreadsheet check |
| Submission.InstanceSubmitter.Delete | collect_app/src/main/java/app/nexusforms/android/instancemanagement/InstanceSubmitter.java:116-119 | the instance with that id leaves the instances repository and the call is logged |
| Submission.InstanceSubmitter.GetInstancesToAutoSend | collect_app/src/main/java/app/nexusforms/android/instancemanagement/InstanceSubmitter.java:146-155 | the pending instances whose form is eligible, in repository order, and exactly those |
| Submission.InstanceSubmitter.SubmitInstance | collect_app/src/main/java/app/nexusforms/android/instancemanagement/InstanceSubmitter.java:100-136 | the message, failure and calls of one loop iteration are those of the step specification, and the instance is deleted iff a delete call was made |
| Submission.InstanceSubmitter.SubmitSelectedInstances | collect_app/src/main/java/app/nexusforms/android/instancemanagement/InstanceSubmitter.java:70-140 | a pre-flight failure (empty list, then permission, then account) returns its error with no call made; otherwise the flag, the map, the calls and the deletions are those of the batch specification |
| Submission.InstanceSubmitter.SubmitUnsubmittedInstances | collect_app/src/main/java/app/nexusforms/android/instancemanagement/InstanceSubmitter.java:65-68 | the batch runs on the auto-send selection, with the app flag on iff the setting is not "off" |
| UploaderTask.CredentialStore.SaveCredentials | collect_app/src/main/java/app/nexusforms/android/tasks/InstanceServerUploaderTask.java:135 | the destination's entry becomes the given credentials; no other entry changes |
| UploaderTask.CredentialStore.ClearCredentials | collect_app/src/main/java/app/nexusforms/android/tasks/InstanceServerUploaderTask.java:138 | the destination's entry is removed; no other entry changes |
| UploaderTask.TemporarySaved | collect_app/src/main/java/app/nexusforms/android/tasks/InstanceServerUploaderTask.java:133-140 | the store after setTemporaryCredentials: the destination gets the custom credentials when both are set, and loses any stored ones otherwise |
| UploaderTask.TemporaryCleared | collect_app/src/main/java/app/nexusforms/android/tasks/InstanceServerUploaderTask.java:142-146 | the store after clearTemporaryCredentials: the destination's entry is removed only when both custom credentials were set |
| UploaderTask.CredentialScope | collect_app/src/main/java/app/nexusforms/android/tasks/InstanceServerUploaderTask.java:133-146 | after setting, the destination holds the custom credentials if both are set and nothing otherwise; setting then clearing leaves the destination with none and every other destination as before |
| UploaderTask.FirstCancelled | collect_app/src/main/java/app/nexusforms/android/tasks/InstanceServerUploaderTask.java:70-73 | the first iteration that sees the task cancelled; no earlier one does |
| UploaderTask.TaskStep | collect_app/src/main/java/app/nexusforms/android/tasks/InstanceServerUploaderTask.java:78-93 | one iteration of the upload loop: an authentication challenge records the challenging server and no message; any other attempt records its message under the instance id |
| UploaderTask.TaskEntries | collect_app/src/main/java/app/nexusforms/android/tasks/InstanceServerUploaderTask.java:78-93 | an instance has an entry iff one of its attempts was not an authentication challenge |
| UploaderTask.TaskLastMessageWins | collect_app/src/main/java/app/nexusforms/android/tasks/InstanceServerUploaderTask.java:78-93 | an instance's entry is the message of its last attempt that was not a challenge: the URL failure, the custom or default success text, or the upload failure |
| UploaderTask.AuthServerIsLast | collect_app/src/main/java/app/nexusforms/android/tasks/InstanceServerUploaderTask.java:85-89 | a challenging server is reported iff some attempt was challenged, and it is the server of the last challenge |
| UploaderTask.InstanceServerUploaderTask.DoInBackground | collect_app/src/main/java/app/nexusforms/android/tasks/InstanceServerUploaderTask.java:62-97 | the outcome is that of processing the instances before the first cancelled iteration; progress `(j+1, n)` is published for each of them; every URL request carries the destination override |
| UploaderTask.InstanceServerUploaderTask.SetTemporaryCredentials | collect_app/src/main/java/app/nexusforms/android/tasks/InstanceServerUploaderTask.java:133-140 | the store saves the custom credentials for the destination when both are set, and otherwise clears that destination |
| UploaderTask.InstanceServerUploaderTask.ClearTemporaryCredentials | collect_app/src/main/java/app/nexusforms/android/tasks/InstanceServerUploaderTask.java:142-146 | the destination is cleared only when both custom credentials were set; the anonymous case changes nothing |
| UploaderTask.InstanceServerUploaderTask.SetCompleteDestinationUrl | collect_app/src/main/java/app/nexusforms/android/tasks/InstanceServerUploaderTask.java:112-114 | the two-argument form with `clearPreviousConfig` true |
| UploaderTask.InstanceServerUploaderTask.SetCompleteDestinationUrlWithConfig | collect_app/src/main/java/app/nexusforms/android/tasks/InstanceServerUploaderTask.java:116-121 | the destination is set; the store is updated for the new destination when asked, and left unchanged otherwise |
| UploaderTask.InstanceServerUploaderTask.SetCustomUsername | collect_app/src/main/java/app/nexusforms/android/tasks/InstanceServerUploaderTask.java:123-126 | the username is set and the temporary credentials are re-applied |
| UploaderTask.InstanceServerUploaderTask.SetCustomPassword | collect_app/src/main/java/app/nexusforms/android/tasks/InstanceServerUploaderTask.java:128-131 | the password is set and the temporary credentials are re-applied |
| UploaderTask.InstanceServerUploaderTask.OnPostExecute | collect_app/src/main/java/app/nexusforms/android/tasks/InstanceServerUploaderTask.java:99-105 | clears the temporary credentials |
| UploaderTask.InstanceServerUploaderTask.OnCancelled | collect_app/src/main/java/app/nexusforms/android/tasks/InstanceServerUploaderTask.java:107-110 | clears the temporary credentials, as after a completed run |
| UploaderTask.CredentialSession | collect_app/src/main/java/app/nexusforms/android/tasks/InstanceServerUploaderTask.java:112-146 | a caller sets the destination, the username and the password, and the task completes: the custom credentials are stored while it runs, and afterwards the destination has none and every other destination is as before |

## Left out

- The network exchange, the listing fetcher, the form downloader and the upload backends (`InstanceServerUploader`, `InstanceGoogleSheetsUploader`) are not modelled. Their results are supplied as values: the `Listing`, download outcomes, and a `Response` per instance.
- Whether a URL names a spreadsheet file (`doesUrlRefersToGoogleSheetsFile`) is a function parameter. The per-form deletion policy (`shouldFormBeDeleted`) is modelled with the same rule as `shouldFormBeSent`, over the form's auto-delete flag; its own code is not part of this model.
- `FormDeleter` and `InstanceDeleter` are not part of this model. A deletion removes the entry with that id from its repository. Any cascade to instances, and any soft delete, are not modelled.
- What the downloader writes into the forms repository is not modelled. The reconciler's repository reflects only its deletions.
- `getUploadResultMessage` is not modelled. The submitter returns the per-instance map itself, not the summary text built from it.
- Instance status changes made inside the upload backends are not modelled.
- Analytics events and the MD5 hash of the submission endpoint are left out. They are telemetry with no effect on behaviour.
- The device-id lookup, `getInstancesFromIds`, Google account selection (`selectAccount`), and the construction of the Drive and Sheets API clients are left out. The task receives its instances directly.
- Localised texts are supplied as parameters (`Texts`). Protocol selection is a `Protocol` value rather than a comparison with a translated string.
- AsyncTask threading, progress delivery to the UI thread, and the listener call in the superclass's `onPostExecute` are left out. Progress is a returned sequence; cancellation is read per iteration.
- Records.LatestByFormIdAndVersion: its contract states only that the result matches and that none is returned iff no form matches. Which of several matches counts as latest (the last in repository order) is fixed by its definition only, because the repository's ordering query is not part of this model.
- UploaderTask.CredentialStore.SaveCredentials: the store is keyed by the full destination URL, not the host that `WebCredentialsUtils` extracts from it, because that extraction is not part of this model.
