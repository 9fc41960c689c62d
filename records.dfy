/** Records shared by the catalog reconciler and the submission components:
    local form definitions, filled-in instances and the server's form
    descriptors, plus the forms-repository lookup they all use. */
module Records {

  datatype Option<T> = None | Some(value: T)

  /** A form definition in the local forms repository. `id` is the
      repository's primary key; `autoSend` and `autoDelete` are the form's
      tri-state text flags (absent = inherit the app-level setting). */
  datatype Form = Form(
    id: int,
    jrFormId: string,
    jrVersion: Option<string>,
    autoSend: Option<string>,
    autoDelete: Option<string>)

  datatype InstanceStatus = Incomplete | Complete | Submitted | SubmissionFailed

  /** A filled-in instance; it refers to its form by (jrFormId, jrVersion). */
  datatype Instance = Instance(
    id: int,
    jrFormId: string,
    jrVersion: Option<string>,
    status: InstanceStatus)

  /** One entry of the server's form listing. The two flags are computed by
      the listing fetcher against the local catalog. */
  datatype RemoteForm = RemoteForm(
    formId: string,
    version: Option<string>,
    isNotOnDevice: bool,
    isUpdated: bool)

  function LowerAscii(c: char): char {
    if 'A' <= c <= 'Z' then (c as int + 32) as char else c
  }

  /** Java's Boolean.valueOf(String): true exactly for "true", ignoring case. */
  predicate BooleanValueOf(s: string) {
    |s| == 4 && LowerAscii(s[0]) == 't' && LowerAscii(s[1]) == 'r'
    && LowerAscii(s[2]) == 'u' && LowerAscii(s[3]) == 'e'
  }

  predicate FormMatches(f: Form, jrFormId: string, jrVersion: Option<string>) {
    f.jrFormId == jrFormId && f.jrVersion == jrVersion
  }

  /** The forms repository's getLatestByFormIdAndVersion. The model takes
      the last match in repository order as the latest. */
  function LatestByFormIdAndVersion(forms: seq<Form>, jrFormId: string, jrVersion: Option<string>): (r: Option<Form>)
    ensures r.None? <==> forall f :: f in forms ==> !FormMatches(f, jrFormId, jrVersion)
    ensures r.Some? ==> r.value in forms && FormMatches(r.value, jrFormId, jrVersion)
  {
    if |forms| == 0 then None
    else
      var last := forms[|forms| - 1];
      if FormMatches(last, jrFormId, jrVersion) then Some(last)
      else
        var r := LatestByFormIdAndVersion(forms[..|forms| - 1], jrFormId, jrVersion);
        assert forall f :: f in forms ==> f in forms[..|forms| - 1] || f == last;
        r
  }

  /** A per-form text flag resolved against an app-level default: an absent
      flag inherits the default, a present one is parsed by Boolean.valueOf. */
  predicate ResolveFlag(formFlag: Option<string>, appDefault: bool) {
    if formFlag.None? then appDefault else BooleanValueOf(formFlag.value)
  }

  /** The repository ids of a sequence of instances. */
  function InstanceIds(s: seq<Instance>): (ids: set<int>)
    ensures forall k :: 0 <= k < |s| ==> s[k].id in ids
    ensures forall id :: id in ids ==> exists k :: 0 <= k < |s| && s[k].id == id
  {
    set k | 0 <= k < |s| :: s[k].id
  }

  lemma InstanceIdsSnoc(s: seq<Instance>)
    requires |s| > 0
    ensures InstanceIds(s) == InstanceIds(s[..|s| - 1]) + {s[|s| - 1].id}
  {
    var n := |s| - 1;
    forall id | id in InstanceIds(s) ensures id in InstanceIds(s[..n]) + {s[n].id} {
      var k :| 0 <= k < |s| && s[k].id == id;
      if k < n {
        assert s[..n][k] == s[k];
      }
    }
  }

  /** Concatenation is associative; used to regroup a call log after an append. */
  lemma SeqAssoc<T>(a: seq<T>, b: seq<T>, c: seq<T>)
    ensures a + b + c == a + (b + c)
  {
  }
}
