/** What the client-side form schemas produce: a list of issues, each attached to a field path
    with its message, in the order the schema declares its checks. A form is submitted only when
    the list is empty, and a field shows the first issue attached to it. */
module Forms {
  import opened Wrappers
  import opened Sequences

  datatype Issue = Issue(path: string, message: string)

  /** One check: no issue when it holds, otherwise its message at `path`. */
  function Check(ok: bool, path: string, message: string): (issues: seq<Issue>)
    ensures |issues| <= 1
    ensures issues == [] <==> ok
    ensures !ok ==> Issue(path, message) in issues
    ensures forall k :: 0 <= k < |issues| ==> issues[k] == Issue(path, message)
  {
    if ok then [] else [Issue(path, message)]
  }

  /** `.min(1, message)` on a string field. */
  function Required(value: string, path: string, message: string): seq<Issue> {
    Check(|value| >= 1, path, message)
  }

  predicate Accepted(issues: seq<Issue>) {
    |issues| == 0
  }

  lemma AcceptedConcat(a: seq<Issue>, b: seq<Issue>)
    ensures Accepted(a + b) <==> Accepted(a) && Accepted(b)
  {
  }

  /** No issue is attached to `path`. */
  predicate Avoids(issues: seq<Issue>, path: string) {
    forall k :: 0 <= k < |issues| ==> issues[k].path != path
  }

  lemma AvoidsConcat(a: seq<Issue>, b: seq<Issue>, path: string)
    requires Avoids(a, path) && Avoids(b, path)
    ensures Avoids(a + b, path)
  {
    forall k | 0 <= k < |a + b| ensures (a + b)[k].path != path {
      if k >= |a| {
        assert (a + b)[k] == b[k - |a|];
      }
    }
  }

  /** The message a field displays: that of the first issue on its path. */
  function ShownMessage(issues: seq<Issue>, path: string): (shown: Option<string>)
    ensures shown.None? <==> forall k :: 0 <= k < |issues| ==> issues[k].path != path
    ensures shown.Some? ==>
      exists k :: 0 <= k < |issues| && issues[k] == Issue(path, shown.value) && forall j :: 0 <= j < k ==> issues[j].path != path
  {
    var onPath := (i: Issue) => i.path == path;
    var found := Find(issues, onPath);
    if found.Some? then
      FindIsFirst(issues, onPath);
      assert found.value == Issue(path, found.value.message);
      Some(found.value.message)
    else None
  }

  /** A field whose only issue comes last shows that issue. */
  lemma {:induction false} ShownMessageLast(head: seq<Issue>, last: Issue)
    requires forall k :: 0 <= k < |head| ==> head[k].path != last.path
    ensures ShownMessage(head + [last], last.path) == Some(last.message)
    decreases |head|
  {
    if |head| > 0 {
      assert (head + [last])[1..] == head[1..] + [last];
      ShownMessageLast(head[1..], last);
    }
  }

  /** The first issue is shown on its own field. */
  lemma ShownMessageFirst(issues: seq<Issue>)
    requires |issues| > 0
    ensures ShownMessage(issues, issues[0].path) == Some(issues[0].message)
  {
  }
}
