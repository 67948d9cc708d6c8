/** The two input forms above the grid: the team-invite form (`username`, `email`) with
    the validator of `addTeamMember`, and the new-task form (`newTask`) with the
    goal-required check and the `assigned_to` default of `addNewTask`. The requests are
    modelled by their bodies; whether a response was ok is an input. */
module Forms {
  import opened Base
  import JsString

  // ---------------------------------------------------------------------------
  // The email pattern ^[^\s@]+@[^\s@]+\.[^\s@]+$
  // ---------------------------------------------------------------------------

  /** No character of `s` is white space in the sense of `\s`. */
  predicate NoSpace(s: string) {
    forall i :: 0 <= i < |s| ==> !JsString.IsSpace(s[i])
  }

  /** A non-empty run of the class `[^\s@]`. */
  predicate Plain(s: string) {
    |s| > 0 && '@' !in s && NoSpace(s)
  }

  /** The language of the pattern, as the regular expression reads: a plain run, an `@`,
      a plain run, a `.`, a plain run. */
  ghost predicate InEmailLanguage(s: string) {
    exists local: string, host: string, tld: string ::
      Plain(local) && Plain(host) && Plain(tld) && s == local + "@" + host + "." + tld
  }

  /** The index of the first `@` in `s`, if any. */
  function FindAt(s: string): (r: Option<nat>)
    ensures r.None? <==> '@' !in s
    ensures r.Some? ==> r.value < |s| && s[r.value] == '@' && '@' !in s[..r.value]
    decreases |s|
  {
    if s == [] then None
    else if s[0] == '@' then Some(0)
    else
      match FindAt(s[1..])
      case None => None
      case Some(i) =>
        assert s[..i + 1] == [s[0]] + s[1..][..i];
        Some(i + 1)
  }

  /** The part after the first `@` passes: no further `@`, and a `.` that is neither its
      first nor its last character. */
  predicate DomainOk(domain: string) {
    '@' !in domain && |domain| >= 3 && '.' in domain[1..|domain| - 1]
  }

  /** The checks the scan makes. */
  predicate EmailScan(s: string) {
    && NoSpace(s)
    && match FindAt(s)
       case None => false
       case Some(at) => at >= 1 && DomainOk(s[at + 1..])
  }

  /** The test the validator performs, written as a scan: no whitespace anywhere, one
      `@` with something before it, and a domain after it that passes `DomainOk`. */
  function ValidEmail(s: string): (r: bool)
    ensures r <==> InEmailLanguage(s)
  {
    EmailScanIsPattern(s);
    EmailScan(s)
  }

  /** The scan accepts exactly the strings of the pattern's language. */
  lemma EmailScanIsPattern(s: string)
    ensures EmailScan(s) <==> InEmailLanguage(s)
  {
    if InEmailLanguage(s) {
      var local: string, host: string, tld: string :|
        Plain(local) && Plain(host) && Plain(tld) && s == local + "@" + host + "." + tld;
      PatternPassesScan(s, local, host, tld);
    }
    if EmailScan(s) {
      ScanPassesPattern(s, FindAt(s).value);
    }
  }

  lemma NoSpaceConcat(a: string, b: string)
    ensures NoSpace(a + b) <==> NoSpace(a) && NoSpace(b)
  {
    forall i | 0 <= i < |a| ensures (a + b)[i] == a[i] {}
    forall i | 0 <= i < |b| ensures (a + b)[|a| + i] == b[i] {}
    if NoSpace(a) && NoSpace(b) {
      forall i | 0 <= i < |a + b| ensures !JsString.IsSpace((a + b)[i]) {
        if i >= |a| {
          assert (a + b)[i] == b[i - |a|];
        }
      }
    }
  }

  lemma NoSpaceSlice(s: string, i: nat, j: nat)
    requires NoSpace(s) && i <= j <= |s|
    ensures NoSpace(s[i..j])
  {
    forall k | 0 <= k < j - i ensures !JsString.IsSpace(s[i..j][k]) {
      assert s[i..j][k] == s[i + k];
    }
  }

  /** A string the pattern matches passes each test of the scan. */
  lemma PatternPassesScan(s: string, local: string, host: string, tld: string)
    requires Plain(local) && Plain(host) && Plain(tld) && s == local + "@" + host + "." + tld
    ensures EmailScan(s)
  {
    var domain := host + "." + tld;
    assert s == local + (['@'] + domain);
    PatternDomain(host, tld);
    NoSpaceConcat(['@'], domain);
    NoSpaceConcat(local, ['@'] + domain);
    FindAtPrefix(local, ['@'] + domain);
    assert s[|local| + 1..] == domain;
  }

  /** The part of a matched string after its `@` has no white space and passes `DomainOk`. */
  lemma PatternDomain(host: string, tld: string)
    requires Plain(host) && Plain(tld)
    ensures NoSpace(host + "." + tld) && DomainOk(host + "." + tld)
  {
    var domain := host + "." + tld;
    NoSpaceConcat(host, ".");
    NoSpaceConcat(host + ".", tld);
    assert domain[1..|domain| - 1][|host| - 1] == '.';
  }

  /** The first `@` of `a + b` is the first of `b` when `a` has none. */
  lemma {:induction false} FindAtPrefix(a: string, b: string)
    requires '@' !in a
    requires |b| > 0 && b[0] == '@'
    ensures FindAt(a + b) == Some(|a|)
    decreases |a|
  {
    if a == [] {
      assert a + b == b;
    } else {
      assert (a + b)[0] == a[0] && (a + b)[1..] == a[1..] + b;
      assert a[0] in a;
      assert forall c :: c in a[1..] ==> c in a;
      FindAtPrefix(a[1..], b);
    }
  }

  /** A domain that passes splits at an inner `.` into two plain runs. */
  lemma SplitDomain(domain: string) returns (host: string, tld: string)
    requires NoSpace(domain) && DomainOk(domain)
    ensures Plain(host) && Plain(tld) && domain == host + "." + tld
  {
    var mid := domain[1..|domain| - 1];
    var k :| 0 <= k < |mid| && mid[k] == '.';
    var dot := k + 1;
    assert domain[dot] == '.';
    host, tld := domain[..dot], domain[dot + 1..];
    assert domain == host + "." + tld;
    NoSpaceSlice(domain, 0, dot);
    NoSpaceSlice(domain, dot + 1, |domain|);
    assert forall c :: c in host ==> c in domain;
    assert forall c :: c in tld ==> c in domain;
  }

  /** A string that passes the scan splits into the three plain runs of the pattern. */
  lemma ScanPassesPattern(s: string, at: nat)
    requires NoSpace(s) && FindAt(s) == Some(at) && at >= 1 && DomainOk(s[at + 1..])
    ensures InEmailLanguage(s)
  {
    var local := s[..at];
    var domain := s[at + 1..];
    NoSpaceSlice(s, 0, at);
    NoSpaceSlice(s, at + 1, |s|);
    var host, tld := SplitDomain(domain);
    assert s == local + "@" + host + "." + tld by {
      assert s == s[..at] + [s[at]] + s[at + 1..];
    }
    assert Plain(local);
  }

  /** The shortest address and one with dots in every part, as the character class
      allows them, are accepted. */
  lemma AcceptedEmails()
    ensures ValidEmail("a@b.c")
    ensures ValidEmail("a.b@c.d.e")
  {
    assert InEmailLanguage("a@b.c") by {
      assert Plain("a") && Plain("b") && Plain("c");
      assert "a@b.c" == "a" + "@" + "b" + "." + "c";
    }
    assert InEmailLanguage("a.b@c.d.e") by {
      assert Plain("a.b") && Plain("c.d") && Plain("e");
      assert "a.b@c.d.e" == "a.b" + "@" + "c.d" + "." + "e";
    }
  }

  /** A domain without an inner dot, a second `@` and a space are each turned away. */
  lemma RejectedEmails()
    ensures !ValidEmail("a@bc.")
    ensures !ValidEmail("a@b@c.d")
    ensures !ValidEmail("a @b.c")
  {
    assert FindAt("a@bc.") == Some(1);
    assert "a@bc."[2..][1..2] == "c";
    assert FindAt("a@b@c.d") == Some(1);
    assert "a@b@c.d"[2..][1] == '@';
    assert JsString.IsSpace("a @b.c"[1]);
  }

  // ---------------------------------------------------------------------------
  // The invite form
  // ---------------------------------------------------------------------------

  /** The `username` and `email` state cells. */
  datatype InviteForm = InviteForm(username: string, email: string)

  const BlankInvite: InviteForm := InviteForm("", "")

  /** The guard of `addTeamMember`: both fields non-empty and the email well formed. */
  function CanInvite(f: InviteForm): (r: bool)
    ensures r <==> f.username != "" && InEmailLanguage(f.email)
  {
    f.username != "" && f.email != "" && ValidEmail(f.email)
  }

  /** What `addTeamMember` does: a rejected form shows an alert and sends nothing; an
      accepted one posts `{ username, email }`, and the fields are cleared only when the
      response is ok (a failed response shows an alert and keeps them). */
  datatype InviteResult = InviteResult(form: InviteForm, request: Option<InviteForm>, alert: Option<string>)

  function AddTeamMember(f: InviteForm, ok: bool): (r: InviteResult)
    ensures r.request.Some? <==> f.username != "" && InEmailLanguage(f.email)
    ensures r.request.Some? ==> r.request.value == f
    ensures r.form == (if r.request.Some? && ok then BlankInvite else f)
    ensures r.alert.None? <==> r.request.Some? && ok
    ensures r.request.None? ==> r.alert == Some("Please enter a valid username and email")
    ensures r.request.Some? && !ok ==> r.alert == Some("Failed to add user")
  {
    if !CanInvite(f) then InviteResult(f, None, Some("Please enter a valid username and email"))
    else if ok then InviteResult(BlankInvite, Some(f), None)
    else InviteResult(f, Some(f), Some("Failed to add user"))
  }

  // ---------------------------------------------------------------------------
  // The new-task form
  // ---------------------------------------------------------------------------

  /** The `newTask` state cell; every field holds the text of its input or select. */
  datatype NewTask = NewTask(
    phase: string, goal: string, need: string, comments: string,
    execute: string, stage: string, commentArea: string, assignedTo: string)

  /** The form's value on first render and after a task was added. */
  const DefaultTask: NewTask := NewTask("Design", "", "", "", "N", "review", "", "team")

  /** The named inputs of the form. */
  datatype TaskField = PhaseField | GoalField | NeedField | CommentsField
                     | ExecuteField | StageField | CommentAreaField | AssignedToField

  function FieldOf(t: NewTask, f: TaskField): string {
    match f
    case PhaseField => t.phase
    case GoalField => t.goal
    case NeedField => t.need
    case CommentsField => t.comments
    case ExecuteField => t.execute
    case StageField => t.stage
    case CommentAreaField => t.commentArea
    case AssignedToField => t.assignedTo
  }

  /** `handleNewTaskChange`: the named field takes the input's value; the others keep theirs. */
  function NewTaskChanged(t: NewTask, f: TaskField, value: string): (r: NewTask)
    ensures FieldOf(r, f) == value
    ensures forall g :: g != f ==> FieldOf(r, g) == FieldOf(t, g)
  {
    match f
    case PhaseField => t.(phase := value)
    case GoalField => t.(goal := value)
    case NeedField => t.(need := value)
    case CommentsField => t.(comments := value)
    case ExecuteField => t.(execute := value)
    case StageField => t.(stage := value)
    case CommentAreaField => t.(commentArea := value)
    case AssignedToField => t.(assignedTo := value)
  }

  /** What `addNewTask` does: an empty goal shows an alert and sends nothing; otherwise
      the form is posted with an empty `assigned_to` replaced by "team", and the form
      goes back to its default only when the response is ok. */
  datatype TaskResult = TaskResult(form: NewTask, request: Option<NewTask>, alert: Option<string>)

  function AddNewTask(t: NewTask, ok: bool): (r: TaskResult)
    ensures r.request.Some? <==> t.goal != ""
    ensures r.request.Some? ==>
      && r.request.value.assignedTo == (if t.assignedTo == "" then "team" else t.assignedTo)
      && r.request.value.assignedTo != ""
      && forall g :: g != AssignedToField ==> FieldOf(r.request.value, g) == FieldOf(t, g)
    ensures r.form == (if r.request.Some? && ok then DefaultTask else t)
    ensures r.alert.None? <==> r.request.Some? && ok
    ensures r.request.None? ==> r.alert == Some("Please enter a goal")
    ensures r.request.Some? && !ok ==> r.alert == Some("Failed to add task")
  {
    if t.goal == "" then TaskResult(t, None, Some("Please enter a goal"))
    else
      var body := t.(assignedTo := if t.assignedTo == "" then "team" else t.assignedTo);
      if ok then TaskResult(DefaultTask, Some(body), None)
      else TaskResult(t, Some(body), Some("Failed to add task"))
  }

  /** Typing a goal into the default form and submitting sends the default task with
      that goal; a form whose goal was never filled in is never sent. */
  lemma DefaultFormNeedsGoal(goal: string, ok: bool)
    ensures AddNewTask(DefaultTask, ok).request.None?
    ensures goal != "" ==>
      AddNewTask(NewTaskChanged(DefaultTask, GoalField, goal), ok).request == Some(DefaultTask.(goal := goal))
  {
  }
}
