/** The onboarding wizard of `OnboardingController`: the slug rule for
    organization and event names, the guard of the step page, and the
    three `submit` steps and `skip`, which write the `onboarding_step` and
    `onboarding_completed` columns of the user's newest organization.
    The database is abstracted to its tables, each a sequence in insertion
    order; fresh ids (`uuidv7()`) and the clock (`Date.now()`) are
    parameters. */
module Onboarding {
  import opened Wrappers
  import opened JsString

  type Uuid = string

  // ---------------------------------------------------------------- slug

  predicate IsSlugChar(c: char) {
    'a' <= c <= 'z' || '0' <= c <= '9' || c == '-'
  }

  predicate IsSlug(s: string) {
    forall k :: 0 <= k < |s| ==> IsSlugChar(s[k])
  }

  /** `.replace(/\s+/g, "-")`: every maximal run of whitespace becomes a
      single dash. `inRun` says whether the character before `s` was
      whitespace (and so already produced the dash of its run). */
  function DashRuns(s: string, inRun: bool): string
    decreases |s|
  {
    if s == [] then []
    else if IsWhitespace(s[0]) then (if inRun then [] else "-") + DashRuns(s[1..], true)
    else [s[0]] + DashRuns(s[1..], false)
  }

  /** `.replace(/[^a-z0-9-]/g, "")`: every character outside `[a-z0-9-]`
      deleted, the rest kept in order. */
  function KeepSlugChars(s: string): (r: string)
    ensures IsSlug(r)
    decreases |s|
  {
    if s == [] then []
    else (if IsSlugChar(s[0]) then [s[0]] else []) + KeepSlugChars(s[1..])
  }

  /** The slug of an organization or event name: lower-cased, whitespace
      runs dashed, everything outside `[a-z0-9-]` dropped. */
  function Slug(name: string): (slug: string)
    ensures IsSlug(slug)
  {
    KeepSlugChars(DashRuns(Lower(name), false))
  }

  /** No whitespace survives the dashing. */
  lemma {:induction false} DashRunsRemovesWhitespace(s: string, inRun: bool)
    ensures NoWhitespace(DashRuns(s, inRun))
    decreases |s|
  {
    if s != [] {
      DashRunsRemovesWhitespace(s[1..], IsWhitespace(s[0]));
    }
  }

  /** A string without whitespace passes the dashing unchanged. */
  lemma {:induction false} DashRunsNoWhitespace(s: string, inRun: bool)
    requires NoWhitespace(s)
    ensures DashRuns(s, inRun) == s
    decreases |s|
  {
    if s != [] {
      DashRunsNoWhitespace(s[1..], false);
      assert [s[0]] + s[1..] == s;
    }
  }

  lemma {:induction false} KeepSlugCharsIdentity(s: string)
    requires IsSlug(s)
    ensures KeepSlugChars(s) == s
    decreases |s|
  {
    if s != [] {
      KeepSlugCharsIdentity(s[1..]);
      assert [s[0]] + s[1..] == s;
    }
  }

  /** Deleting characters works piece by piece. */
  lemma {:induction false} KeepSlugCharsAppend(s: string, t: string)
    ensures KeepSlugChars(s + t) == KeepSlugChars(s) + KeepSlugChars(t)
    decreases |s|
  {
    if s != [] {
      assert (s + t)[1..] == s[1..] + t;
      KeepSlugCharsAppend(s[1..], t);
    } else {
      assert s + t == t;
    }
  }

  /** A name already in slug form is its own slug. */
  lemma SlugOfSlug(s: string)
    requires IsSlug(s)
    ensures Slug(s) == s
  {
    LowerIdentity(s);
    DashRunsNoWhitespace(s, false);
    KeepSlugCharsIdentity(s);
  }

  /** Deriving a slug twice gives the same slug. */
  lemma SlugIdempotent(name: string)
    ensures Slug(Slug(name)) == Slug(name)
  {
    SlugOfSlug(Slug(name));
  }

  /** A word (no whitespace) passes through, and whatever follows it is
      no longer inside a run. */
  lemma {:induction false} DashRunsWord(w: string, rest: string, inRun: bool)
    requires |w| > 0 && NoWhitespace(w)
    ensures DashRuns(w + rest, inRun) == w + DashRuns(rest, false)
    decreases |w|
  {
    assert (w + rest)[1..] == w[1..] + rest;
    if |w| > 1 {
      DashRunsWord(w[1..], rest, false);
    } else {
      assert w[1..] + rest == rest;
    }
    assert [w[0]] + w[1..] == w;
  }

  /** A whitespace run, however long, gives one dash (none when it
      continues a run). */
  lemma {:induction false} DashRunsSpaces(ws: string, rest: string, inRun: bool)
    requires |ws| > 0 && AllWhitespace(ws)
    ensures DashRuns(ws + rest, inRun) == (if inRun then [] else "-") + DashRuns(rest, true)
    decreases |ws|
  {
    assert (ws + rest)[1..] == ws[1..] + rest;
    if |ws| > 1 {
      DashRunsSpaces(ws[1..], rest, true);
    } else {
      assert ws[1..] + rest == rest;
    }
  }

  /** A whitespace run of any length becomes one dash and punctuation
      disappears. */
  lemma SlugExampleRun(name: string)
    requires name == "My  Org!"
    ensures Slug(name) == "my-org"
  {
    LowerExample(name);
    DashExample(Lower(name));
    KeepExample(DashRuns(Lower(name), false));
  }

  lemma LowerExample(name: string)
    requires name == "My  Org!"
    ensures Lower(name) == "my" + ("  " + "org!")
  {
  }

  lemma DashExample(lowered: string)
    requires lowered == "my" + ("  " + "org!")
    ensures DashRuns(lowered, false) == "my-org" + "!"
  {
    var word, spaces, rest := "my", "  ", "org!";
    DashRunsWord(word, spaces + rest, false);
    DashRunsSpaces(spaces, rest, false);
    DashRunsNoWhitespace(rest, true);
  }

  lemma KeepExample(dashed: string)
    requires dashed == "my-org" + "!"
    ensures KeepSlugChars(dashed) == "my-org"
  {
    KeepSlugCharsAppend("my-org", "!");
    KeepSlugCharsIdentity("my-org");
  }

  /** Dashes already in the name survive, so the spaces around a dash add
      two more. */
  lemma SlugExampleDash()
    ensures Slug("a - b") == "a---b"
  {
    assert Lower("a - b") == "a" + (" " + ("-" + (" " + "b")));
    DashRunsWord("a", " " + ("-" + (" " + "b")), false);
    DashRunsSpaces(" ", "-" + (" " + "b"), false);
    DashRunsWord("-", " " + "b", true);
    DashRunsSpaces(" ", "b", false);
    DashRunsNoWhitespace("b", true);
    assert DashRuns("a - b", false) == "a---b";
    KeepSlugCharsIdentity("a---b");
  }

  // ---------------------------------------------------------------- tables

  datatype User = User(id: Uuid, email: string)

  datatype Organization = Organization(
    id: Uuid,
    name: string,
    slug: string,
    description: Option<string>,
    createdBy: Uuid,
    completed: bool,
    step: int,
    createdAt: int,
    updatedAt: int)

  datatype Role = Admin | Manager | Staff

  datatype Membership = Membership(id: Uuid, orgId: Uuid, userId: Uuid, role: Role, addedBy: Uuid, addedAt: int)

  /** An event row; the dates are kept as submitted, since their
      conversion to timestamps is not part of this model. */
  datatype Event = Event(
    id: Uuid,
    orgId: Uuid,
    name: string,
    slug: string,
    kind: string,
    startDate: string,
    endDate: string,
    location: Option<string>,
    status: string,
    entrySystem: string,
    createdBy: Uuid,
    createdAt: int)

  datatype EventSettings = EventSettings(
    id: Uuid,
    eventId: Uuid,
    requireApproval: bool,
    allowSelfRegistration: bool,
    allowDuplicateCheckin: bool,
    requireVerification: bool,
    sendConfirmationEmail: bool,
    sendQrEmail: bool,
    timezone: string,
    locale: string,
    createdAt: int)

  datatype Store = Store(
    users: seq<User>,
    organizations: seq<Organization>,
    members: seq<Membership>,
    events: seq<Event>,
    settings: seq<EventSettings>)

  /** The fields of a submitted form the three steps read. */
  datatype Body = Body(
    name: Option<string>,
    description: Option<string>,
    kind: Option<string>,
    startDate: Option<string>,
    endDate: Option<string>,
    location: Option<string>,
    skipEvent: bool,
    skipTeam: bool,
    emails: Option<seq<string>>)

  datatype Page = StepOne | StepTwo | StepThree | Complete

  /** Where a request is sent, with the flashed error if any. */
  datatype Reply = ToLogin | Redirect(page: Page, error: Option<string>)

  datatype Outcome = Outcome(reply: Reply, store: Store)

  /** A JavaScript string value used as a condition: present and not
      empty. */
  predicate Truthy(v: Option<string>) {
    v.Some? && v.value != ""
  }

  /** `x || null` on a string value. */
  function OrNone(v: Option<string>): (r: Option<string>)
    ensures r.Some? <==> Truthy(v)
    ensures r.Some? ==> r == v
  {
    if Truthy(v) then v else None
  }

  predicate Owned(o: Organization, user: Uuid, incompleteOnly: bool) {
    o.createdBy == user && (!incompleteOnly || !o.completed)
  }

  /** The newest organization created by the user (optionally: among those
      not done with onboarding); rows are in `created_at` order. */
  function NewestOwned(orgs: seq<Organization>, user: Uuid, incompleteOnly: bool): (found: Option<nat>)
    ensures found.Some? ==> found.value < |orgs| && Owned(orgs[found.value], user, incompleteOnly)
    ensures found.Some? ==> forall j :: found.value < j < |orgs| ==> !Owned(orgs[j], user, incompleteOnly)
    ensures found.None? ==> forall j :: 0 <= j < |orgs| ==> !Owned(orgs[j], user, incompleteOnly)
    decreases |orgs|
  {
    if orgs == [] then None
    else if Owned(orgs[|orgs| - 1], user, incompleteOnly) then Some(|orgs| - 1)
    else NewestOwned(orgs[..|orgs| - 1], user, incompleteOnly)
  }

  predicate OrgSlugTaken(orgs: seq<Organization>, slug: string) {
    exists k :: 0 <= k < |orgs| && orgs[k].slug == slug
  }

  predicate EventSlugTaken(events: seq<Event>, slug: string) {
    exists k :: 0 <= k < |events| && events[k].slug == slug
  }

  predicate IsMember(members: seq<Membership>, orgId: Uuid, userId: Uuid) {
    exists k :: 0 <= k < |members| && members[k].orgId == orgId && members[k].userId == userId
  }

  /** The first user whose e-mail is exactly `email`. */
  function UserByEmail(users: seq<User>, email: string): (u: Option<User>)
    ensures u.Some? ==> u.value in users && u.value.email == email
    ensures u.Some? ==>
      exists k :: 0 <= k < |users| && users[k] == u.value && forall j :: 0 <= j < k ==> users[j].email != email
    ensures u.None? ==> forall k :: 0 <= k < |users| ==> users[k].email != email
    decreases |users|
  {
    if users == [] then None
    else if users[0].email == email then Some(users[0])
    else UserByEmail(users[1..], email)
  }

  /** The settings row every onboarding event starts with. */
  function DefaultSettings(id: Uuid, eventId: Uuid, now: int): EventSettings {
    EventSettings(id, eventId, false, true, false, false, true, true, "UTC", "en", now)
  }

  /** The organization at index `i` with its onboarding columns replaced. */
  function SetProgress(st: Store, i: nat, completed: bool, step: int, now: int): Store
    requires i < |st.organizations|
  {
    var o := st.organizations[i];
    st.(organizations := st.organizations[i := o.(completed := completed, step := step, updatedAt := now)])
  }

  // ---------------------------------------------------------------- step page

  /** The route parameter with its `|| "1"` default. */
  function StepParam(param: Option<string>): string {
    if Truthy(param) then param.value else "1"
  }

  /** JavaScript `<` and `>` between a `parseInt` result and a number:
      false whenever `NaN` takes part. */
  predicate Below(x: ParsedInt, k: int) {
    x.Num? && x.value < k
  }

  predicate Above(x: ParsedInt, k: int) {
    x.Num? && x.value > k
  }

  datatype View = Login | GoToStepOne | ShowStep(step: ParsedInt)

  /** The `step` page as written: it redirects when `step < 1 || step > 3`,
      a test `NaN` passes. */
  function StepPageAsWritten(user: Option<Uuid>, users: seq<User>, param: Option<string>): (v: View)
    ensures v.ShowStep? ==> user.Some? && v.step == ParseInt(StepParam(param))
  {
    if user.None? then Login
    else
      var step := ParseInt(StepParam(param));
      if Below(step, 1) || Above(step, 3) then GoToStepOne
      else if !(exists k :: 0 <= k < |users| && users[k].id == user.value) then Login
      else ShowStep(step)
  }

  /** A parameter that is no number at all is let through to the page. */
  lemma StepPageShowsNaN(user: Uuid, users: seq<User>)
    requires exists k :: 0 <= k < |users| && users[k].id == user
    ensures StepPageAsWritten(Some(user), users, Some("abc")) == ShowStep(NaN)
  {
    assert TrimStart("abc") == "abc";
    assert DigitRun("abc", 10) == 0;
  }

  /** The step page with the evident intent: anything but an integer from
      1 to 3 goes back to step 1. */
  function StepPage(user: Option<Uuid>, users: seq<User>, param: Option<string>): (v: View)
    ensures v.ShowStep? ==> user.Some? && v.step == ParseInt(StepParam(param))
    ensures v.ShowStep? ==> v.step.Num? && 1 <= v.step.value <= 3
    ensures user.Some? && !(ParseInt(StepParam(param)).Num? && 1 <= ParseInt(StepParam(param)).value <= 3) ==> v == GoToStepOne
  {
    if user.None? then Login
    else
      var step := ParseInt(StepParam(param));
      if !(step.Num? && 1 <= step.value <= 3) then GoToStepOne
      else if !(exists k :: 0 <= k < |users| && users[k].id == user.value) then Login
      else ShowStep(step)
  }

  /** The two guards differ only on `NaN`: for every parameter that parses
      to a number they answer alike. */
  lemma StepPageAgreesOnNumbers(user: Option<Uuid>, users: seq<User>, param: Option<string>)
    requires ParseInt(StepParam(param)).Num?
    ensures StepPageAsWritten(user, users, param) == StepPage(user, users, param)
  {
  }

  // ---------------------------------------------------------------- submit

  /** Step 1: a name is required and its slug must be free; then the
      organization is created at step 2 and the user becomes its admin.
      The admin row names the organization found by the new slug, which is
      the one just inserted. */
  function AfterStep1(st: Store, user: Uuid, body: Body, newId: nat -> Uuid, now: int): (r: Outcome)
    ensures !Truthy(body.name) ==> r == Outcome(Redirect(StepOne, Some("Organization name is required")), st)
    ensures Truthy(body.name) && OrgSlugTaken(st.organizations, Slug(body.name.value)) ==>
      r == Outcome(Redirect(StepOne, Some("Organization with this name already exists")), st)
  {
    if !Truthy(body.name) then Outcome(Redirect(StepOne, Some("Organization name is required")), st)
    else
      var name := body.name.value;
      var slug := Slug(name);
      if OrgSlugTaken(st.organizations, slug) then
        Outcome(Redirect(StepOne, Some("Organization with this name already exists")), st)
      else
        var org := Organization(newId(0), name, slug, OrNone(body.description), user, false, 2, now, now);
        var admin := Membership(newId(1), org.id, user, Admin, user, now);
        Outcome(Redirect(StepTwo, None),
          st.(organizations := st.organizations + [org], members := st.members + [admin]))
  }

  /** Step 2: unless the event is skipped, a name and both dates are
      required; the user's newest organization (completed or not) is
      looked up; unless skipped, an event with a free slug is created with
      its default settings; the organization moves to step 3. */
  function AfterStep2(st: Store, user: Uuid, body: Body, newId: nat -> Uuid, now: int): (r: Outcome)
    ensures !body.skipEvent && !(Truthy(body.name) && Truthy(body.startDate) && Truthy(body.endDate)) ==>
      r == Outcome(Redirect(StepTwo, Some("Please fill in all required fields")), st)
    ensures r.reply != Redirect(StepThree, None) ==> r.store == st
  {
    if !body.skipEvent && (!Truthy(body.name) || !Truthy(body.startDate) || !Truthy(body.endDate)) then
      Outcome(Redirect(StepTwo, Some("Please fill in all required fields")), st)
    else
      match NewestOwned(st.organizations, user, false)
      case None => Outcome(Redirect(StepOne, Some("Organization not found")), st)
      case Some(i) =>
        var orgId := st.organizations[i].id;
        if !body.skipEvent then
          var name := body.name.value;
          var slug := Slug(name);
          if EventSlugTaken(st.events, slug) then
            Outcome(Redirect(StepTwo, Some("Event with this name already exists")), st)
          else
            var event := Event(newId(0), orgId, name, slug, if Truthy(body.kind) then body.kind.value else "conference",
              body.startDate.value, body.endDate.value, OrNone(body.location), "draft", "qr", user, now);
            var withEvent := st.(events := st.events + [event], settings := st.settings + [DefaultSettings(newId(1), event.id, now)]);
            Outcome(Redirect(StepThree, None), SetProgress(withEvent, i, withEvent.organizations[i].completed, 3, now))
        else
          Outcome(Redirect(StepThree, None), SetProgress(st, i, st.organizations[i].completed, 3, now))
  }

  /** One address of the step-3 team list: skipped when empty or without
      `@`; otherwise the user with the trimmed address, if any, joins as
      staff unless already a member. */
  function AddOne(members: seq<Membership>, users: seq<User>, orgId: Uuid, adder: Uuid, email: string, id: Uuid, now: int): seq<Membership> {
    if email == "" || !Includes(email, "@") then members
    else
      match UserByEmail(users, Trim(email))
      case None => members
      case Some(u) =>
        if IsMember(members, orgId, u.id) then members
        else members + [Membership(id, orgId, u.id, Staff, adder, now)]
  }

  /** The membership table after the team list has been worked through in
      order; the `k`-th address draws the newId id `newId(k)`. */
  function AddTeam(members: seq<Membership>, users: seq<User>, orgId: Uuid, adder: Uuid, emails: seq<string>, newId: nat -> Uuid, now: int): seq<Membership>
    decreases |emails|
  {
    if emails == [] then members
    else
      var k := |emails| - 1;
      AddOne(AddTeam(members, users, orgId, adder, emails[..k], newId, now), users, orgId, adder, emails[k], newId(k), now)
  }

  /** Step 3: the user's newest organization is looked up; unless skipped,
      the team list is added; the organization is marked completed at
      step 4. */
  function AfterStep3(st: Store, user: Uuid, body: Body, newId: nat -> Uuid, now: int): (r: Outcome)
    ensures NewestOwned(st.organizations, user, false).None? ==>
      r == Outcome(Redirect(StepOne, Some("Organization not found")), st)
  {
    match NewestOwned(st.organizations, user, false)
    case None => Outcome(Redirect(StepOne, Some("Organization not found")), st)
    case Some(i) =>
      var orgId := st.organizations[i].id;
      var members :=
        if !body.skipTeam && body.emails.Some? && |body.emails.value| > 0
        then AddTeam(st.members, st.users, orgId, user, body.emails.value, newId, now)
        else st.members;
      Outcome(Redirect(Complete, None), SetProgress(st.(members := members), i, true, 4, now))
  }

  /** `submit`: the login check, then the step parsed from the route
      parameter picks the handler; any other value, `NaN` included, goes
      back to step 1 unchanged. */
  function AfterSubmit(st: Store, user: Option<Uuid>, param: Option<string>, body: Body, newId: nat -> Uuid, now: int): (r: Outcome)
    ensures user.None? ==> r == Outcome(ToLogin, st)
    ensures user.Some? && !(ParseInt(StepParam(param)).Num? && 1 <= ParseInt(StepParam(param)).value <= 3) ==>
      r == Outcome(Redirect(StepOne, None), st)
  {
    if user.None? then Outcome(ToLogin, st)
    else
      var step := ParseInt(StepParam(param));
      if step == Num(1) then AfterStep1(st, user.value, body, newId, now)
      else if step == Num(2) then AfterStep2(st, user.value, body, newId, now)
      else if step == Num(3) then AfterStep3(st, user.value, body, newId, now)
      else Outcome(Redirect(StepOne, None), st)
  }

  /** `skip`: the user's newest organization still in onboarding is marked
      completed at step 5; without one nothing changes. */
  function AfterSkip(st: Store, user: Option<Uuid>, now: int): (r: Outcome)
    ensures user.None? ==> r == Outcome(ToLogin, st)
    ensures user.Some? && NewestOwned(st.organizations, user.value, true).None? ==> r == Outcome(Redirect(Complete, None), st)
  {
    if user.None? then Outcome(ToLogin, st)
    else
      match NewestOwned(st.organizations, user.value, true)
      case None => Outcome(Redirect(Complete, None), st)
      case Some(i) => Outcome(Redirect(Complete, None), SetProgress(st, i, true, 5, now))
  }

  // ---------------------------------------------------------------- the tables as state

  class OnboardingTables {
    var users: seq<User>
    var organizations: seq<Organization>
    var members: seq<Membership>
    var events: seq<Event>
    var settings: seq<EventSettings>

    function Snapshot(): Store
      reads this
    {
      Store(users, organizations, members, events, settings)
    }

    constructor(st: Store)
      ensures Snapshot() == st
    {
      users := st.users;
      organizations := st.organizations;
      members := st.members;
      events := st.events;
      settings := st.settings;
    }

    method Submit(user: Option<Uuid>, param: Option<string>, body: Body, newId: nat -> Uuid, now: int) returns (reply: Reply)
      modifies this
      ensures Outcome(reply, Snapshot()) == AfterSubmit(old(Snapshot()), user, param, body, newId, now)
    {
      if user.None? {
        return ToLogin;
      }
      var step := ParseInt(StepParam(param));
      if step == Num(1) {
        reply := SubmitStep1(user.value, body, newId, now);
      } else if step == Num(2) {
        reply := SubmitStep2(user.value, body, newId, now);
      } else if step == Num(3) {
        reply := SubmitStep3(user.value, body, newId, now);
      } else {
        reply := Redirect(StepOne, None);
      }
    }

    method SubmitStep1(user: Uuid, body: Body, newId: nat -> Uuid, now: int) returns (reply: Reply)
      modifies this
      ensures Outcome(reply, Snapshot()) == AfterStep1(old(Snapshot()), user, body, newId, now)
    {
      if !Truthy(body.name) {
        return Redirect(StepOne, Some("Organization name is required"));
      }
      var name := body.name.value;
      var slug := Slug(name);
      if exists k :: 0 <= k < |organizations| && organizations[k].slug == slug {
        return Redirect(StepOne, Some("Organization with this name already exists"));
      }
      var org := Organization(newId(0), name, slug, OrNone(body.description), user, false, 2, now, now);
      organizations := organizations + [org];
      members := members + [Membership(newId(1), org.id, user, Admin, user, now)];
      reply := Redirect(StepTwo, None);
    }

    method SubmitStep2(user: Uuid, body: Body, newId: nat -> Uuid, now: int) returns (reply: Reply)
      modifies this
      ensures Outcome(reply, Snapshot()) == AfterStep2(old(Snapshot()), user, body, newId, now)
    {
      if !body.skipEvent && (!Truthy(body.name) || !Truthy(body.startDate) || !Truthy(body.endDate)) {
        return Redirect(StepTwo, Some("Please fill in all required fields"));
      }
      var found := NewestOwned(organizations, user, false);
      if found.None? {
        return Redirect(StepOne, Some("Organization not found"));
      }
      var i := found.value;
      var orgId := organizations[i].id;
      if !body.skipEvent {
        var name := body.name.value;
        var slug := Slug(name);
        if exists k :: 0 <= k < |events| && events[k].slug == slug {
          return Redirect(StepTwo, Some("Event with this name already exists"));
        }
        var event := Event(newId(0), orgId, name, slug, if Truthy(body.kind) then body.kind.value else "conference",
          body.startDate.value, body.endDate.value, OrNone(body.location), "draft", "qr", user, now);
        events := events + [event];
        settings := settings + [DefaultSettings(newId(1), event.id, now)];
      }
      organizations := organizations[i := organizations[i].(step := 3, updatedAt := now)];
      reply := Redirect(StepThree, None);
    }

    /** Step 3 with its loop over the team list, one membership check and
        insert per address. */
    method SubmitStep3(user: Uuid, body: Body, newId: nat -> Uuid, now: int) returns (reply: Reply)
      modifies this
      ensures Outcome(reply, Snapshot()) == AfterStep3(old(Snapshot()), user, body, newId, now)
    {
      var found := NewestOwned(organizations, user, false);
      if found.None? {
        return Redirect(StepOne, Some("Organization not found"));
      }
      var i := found.value;
      var orgId := organizations[i].id;
      if !body.skipTeam && body.emails.Some? && |body.emails.value| > 0 {
        var emails := body.emails.value;
        for k := 0 to |emails|
          invariant members == AddTeam(old(members), users, orgId, user, emails[..k], newId, now)
          invariant users == old(users) && organizations == old(organizations)
          invariant events == old(events) && settings == old(settings)
        {
          var email := emails[k];
          assert emails[..k + 1][..k] == emails[..k];
          if email != "" && Includes(email, "@") {
            var existing := UserByEmail(users, Trim(email));
            if existing.Some? {
              var member := exists j :: 0 <= j < |members| && members[j].orgId == orgId && members[j].userId == existing.value.id;
              if !member {
                members := members + [Membership(newId(k), orgId, existing.value.id, Staff, user, now)];
              }
            }
          }
        }
        assert emails[..|emails|] == emails;
      }
      organizations := organizations[i := organizations[i].(completed := true, step := 4, updatedAt := now)];
      reply := Redirect(Complete, None);
    }

    method Skip(user: Option<Uuid>, now: int) returns (reply: Reply)
      modifies this
      ensures Outcome(reply, Snapshot()) == AfterSkip(old(Snapshot()), user, now)
    {
      if user.None? {
        return ToLogin;
      }
      var found := NewestOwned(organizations, user.value, true);
      if found.Some? {
        var i := found.value;
        organizations := organizations[i := organizations[i].(completed := true, step := 5, updatedAt := now)];
      }
      reply := Redirect(Complete, None);
    }
  }

  // ---------------------------------------------------------------- properties

  /** A successful step 1 appends one organization, at step 2 and not
      completed, created by the user under the name's slug, and one admin
      membership of the user in it; nothing else changes. */
  lemma Step1Effect(st: Store, user: Uuid, body: Body, newId: nat -> Uuid, now: int)
    requires AfterStep1(st, user, body, newId, now).reply == Redirect(StepTwo, None)
    ensures var st' := AfterStep1(st, user, body, newId, now).store;
      var n := |st.organizations|;
      Truthy(body.name) &&
      |st'.organizations| == n + 1 && st'.organizations[..n] == st.organizations &&
      st'.organizations[n].slug == Slug(body.name.value) &&
      st'.organizations[n].step == 2 && !st'.organizations[n].completed &&
      st'.organizations[n].createdBy == user &&
      st'.members == st.members + [Membership(newId(1), st'.organizations[n].id, user, Admin, user, now)] &&
      st'.users == st.users && st'.events == st.events && st'.settings == st.settings
  {
    var st' := AfterStep1(st, user, body, newId, now).store;
    assert st'.organizations[..|st.organizations|] == st.organizations;
  }

  predicate UniqueOrgSlugs(orgs: seq<Organization>) {
    forall i, j :: 0 <= i < j < |orgs| ==> orgs[i].slug != orgs[j].slug
  }

  predicate UniqueEventSlugs(events: seq<Event>) {
    forall i, j :: 0 <= i < j < |events| ==> events[i].slug != events[j].slug
  }

  /** Event slugs stay unique: step 2 only inserts under a free slug. */
  lemma Step2KeepsEventSlugsUnique(st: Store, user: Uuid, body: Body, newId: nat -> Uuid, now: int)
    requires UniqueEventSlugs(st.events)
    ensures UniqueEventSlugs(AfterStep2(st, user, body, newId, now).store.events)
  {
    var r := AfterStep2(st, user, body, newId, now);
    if r.store.events != st.events {
      var events := r.store.events;
      var n := |st.events|;
      assert forall i :: 0 <= i < n ==> events[i] == st.events[i];
      assert !EventSlugTaken(st.events, events[n].slug);
    }
  }

  /** A successful step 2 moves the user's newest organization to step 3
      and leaves its completion flag and every other organization alone;
      an event, when created, comes with settings that forbid duplicate
      check-ins. */
  lemma Step2Effect(st: Store, user: Uuid, body: Body, newId: nat -> Uuid, now: int)
    requires AfterStep2(st, user, body, newId, now).reply == Redirect(StepThree, None)
    ensures NewestOwned(st.organizations, user, false).Some?
    ensures var i := NewestOwned(st.organizations, user, false).value;
      var st' := AfterStep2(st, user, body, newId, now).store;
      |st'.organizations| == |st.organizations| &&
      st'.organizations[i].step == 3 &&
      st'.organizations[i].completed == st.organizations[i].completed &&
      st'.organizations[i].slug == st.organizations[i].slug &&
      (forall j :: 0 <= j < |st.organizations| && j != i ==> st'.organizations[j] == st.organizations[j]) &&
      st'.members == st.members &&
      (body.skipEvent ==> st'.events == st.events && st'.settings == st.settings) &&
      (!body.skipEvent ==>
        |st'.events| == |st.events| + 1 && st'.events[|st.events|].slug == Slug(body.name.value) &&
        st'.events[|st.events|].orgId == st.organizations[i].id &&
        |st'.settings| == |st.settings| + 1 && !st'.settings[|st.settings|].allowDuplicateCheckin &&
        st'.settings[|st.settings|].eventId == st'.events[|st.events|].id)
  {
  }

  /** The organization step 2 and step 3 pick need not be in onboarding:
      step 2 on an organization that has completed it sets the step back to
      3 and keeps it completed. */
  lemma Step2ReopensCompleted(st: Store, user: Uuid, body: Body, newId: nat -> Uuid, now: int)
    requires body.skipEvent
    requires NewestOwned(st.organizations, user, false).Some?
    requires st.organizations[NewestOwned(st.organizations, user, false).value].completed
    ensures var i := NewestOwned(st.organizations, user, false).value;
      var st' := AfterStep2(st, user, body, newId, now).store;
      st'.organizations[i].completed && st'.organizations[i].step == 3
  {
  }

  /** A successful step 3 marks the user's newest organization completed at
      step 4; memberships are only appended, each new one as staff of that
      organization; nothing else changes. */
  lemma Step3Effect(st: Store, user: Uuid, body: Body, newId: nat -> Uuid, now: int)
    requires AfterStep3(st, user, body, newId, now).reply == Redirect(Complete, None)
    ensures NewestOwned(st.organizations, user, false).Some?
    ensures var i := NewestOwned(st.organizations, user, false).value;
      var st' := AfterStep3(st, user, body, newId, now).store;
      |st'.organizations| == |st.organizations| &&
      st'.organizations[i].completed && st'.organizations[i].step == 4 &&
      (forall j :: 0 <= j < |st.organizations| && j != i ==> st'.organizations[j] == st.organizations[j]) &&
      |st.members| <= |st'.members| && st'.members[..|st.members|] == st.members &&
      (forall k :: |st.members| <= k < |st'.members| ==>
        st'.members[k].orgId == st.organizations[i].id && st'.members[k].role == Staff) &&
      st'.users == st.users && st'.events == st.events && st'.settings == st.settings
  {
    var i := NewestOwned(st.organizations, user, false).value;
    var body' := body;
    if !body.skipTeam && body.emails.Some? && |body.emails.value| > 0 {
      AddTeamAppends(st.members, st.users, st.organizations[i].id, user, body.emails.value, newId, now);
    }
  }

  /** The team list only appends staff memberships of the organization. */
  lemma {:induction false} AddTeamAppends(members: seq<Membership>, users: seq<User>, orgId: Uuid, adder: Uuid, emails: seq<string>, newId: nat -> Uuid, now: int)
    ensures var ms := AddTeam(members, users, orgId, adder, emails, newId, now);
      |members| <= |ms| && ms[..|members|] == members &&
      forall k :: |members| <= k < |ms| ==> ms[k].orgId == orgId && ms[k].role == Staff
    decreases |emails|
  {
    if emails != [] {
      AddTeamAppends(members, users, orgId, adder, emails[..|emails| - 1], newId, now);
      var prev := AddTeam(members, users, orgId, adder, emails[..|emails| - 1], newId, now);
      var ms := AddTeam(members, users, orgId, adder, emails, newId, now);
      assert ms == prev || ms[..|prev|] == prev;
    }
  }

  predicate UniqueMemberships(ms: seq<Membership>) {
    forall i, j :: 0 <= i < j < |ms| ==> !(ms[i].orgId == ms[j].orgId && ms[i].userId == ms[j].userId)
  }

  /** The team list never adds a second membership of the same user in
      the same organization, even when an address repeats. */
  lemma {:induction false} AddTeamKeepsUnique(members: seq<Membership>, users: seq<User>, orgId: Uuid, adder: Uuid, emails: seq<string>, newId: nat -> Uuid, now: int)
    requires UniqueMemberships(members)
    ensures UniqueMemberships(AddTeam(members, users, orgId, adder, emails, newId, now))
    decreases |emails|
  {
    if emails != [] {
      var k := |emails| - 1;
      AddTeamKeepsUnique(members, users, orgId, adder, emails[..k], newId, now);
      var prev := AddTeam(members, users, orgId, adder, emails[..k], newId, now);
      var ms := AddOne(prev, users, orgId, adder, emails[k], newId(k), now);
      if ms != prev {
        assert forall i :: 0 <= i < |prev| ==> ms[i] == prev[i];
      }
    }
  }

  /** Once the team list is worked through, every listed address with `@`
      that belongs to a user has made that user a member. */
  lemma {:induction false} AddTeamCovers(members: seq<Membership>, users: seq<User>, orgId: Uuid, adder: Uuid, emails: seq<string>, newId: nat -> Uuid, now: int, e: nat)
    requires e < |emails| && Includes(emails[e], "@") && UserByEmail(users, Trim(emails[e])).Some?
    ensures IsMember(AddTeam(members, users, orgId, adder, emails, newId, now), orgId, UserByEmail(users, Trim(emails[e])).value.id)
    decreases |emails|
  {
    var k := |emails| - 1;
    var prev := AddTeam(members, users, orgId, adder, emails[..k], newId, now);
    var ms := AddTeam(members, users, orgId, adder, emails, newId, now);
    var u := UserByEmail(users, Trim(emails[e])).value;
    if e < k {
      assert emails[..k][e] == emails[e];
      AddTeamCovers(members, users, orgId, adder, emails[..k], newId, now, e);
      var j :| 0 <= j < |prev| && prev[j].orgId == orgId && prev[j].userId == u.id;
      assert ms[..|prev|] == prev || ms == prev;
      assert ms[j] == prev[j];
    } else {
      IncludesNonEmpty(emails[e], "@");
      if !IsMember(prev, orgId, u.id) {
        assert ms[|prev|].orgId == orgId && ms[|prev|].userId == u.id;
      }
    }
  }

  lemma IncludesNonEmpty(s: string, p: string)
    requires |p| > 0 && Includes(s, p)
    ensures s != ""
  {
  }

  /** A skip marks the user's newest organization still in onboarding
      completed at step 5; every other organization is left alone. */
  lemma SkipEffect(st: Store, user: Uuid, now: int)
    requires NewestOwned(st.organizations, user, true).Some?
    ensures var i := NewestOwned(st.organizations, user, true).value;
      var st' := AfterSkip(st, Some(user), now).store;
      |st'.organizations| == |st.organizations| &&
      st'.organizations[i].completed && st'.organizations[i].step == 5 &&
      !st.organizations[i].completed && st.organizations[i].createdBy == user &&
      (forall j :: 0 <= j < |st.organizations| && j != i ==> st'.organizations[j] == st.organizations[j]) &&
      st'.members == st.members && st'.events == st.events
  {
  }

  /** How any submit or skip may change the organization table: at most
      one organization is appended, at step 2, not completed, under a slug
      no earlier organization has; an existing organization keeps its slug
      and its completion, and is either untouched or moved to a step from
      2 to 5. */
  ghost predicate Evolves(orgs: seq<Organization>, orgs': seq<Organization>) {
    |orgs| <= |orgs'| <= |orgs| + 1 &&
    (forall j :: 0 <= j < |orgs| ==>
      orgs'[j].slug == orgs[j].slug &&
      (orgs[j].completed ==> orgs'[j].completed) &&
      (orgs'[j] == orgs[j] || 2 <= orgs'[j].step <= 5)) &&
    (|orgs'| > |orgs| ==>
      !OrgSlugTaken(orgs, orgs'[|orgs|].slug) && orgs'[|orgs|].step == 2 && !orgs'[|orgs|].completed)
  }

  lemma SetProgressEvolves(st: Store, i: nat, completed: bool, step: int, now: int)
    requires i < |st.organizations| && 2 <= step <= 5
    requires st.organizations[i].completed ==> completed
    ensures Evolves(st.organizations, SetProgress(st, i, completed, step, now).organizations)
  {
  }

  lemma Step1Evolves(st: Store, user: Uuid, body: Body, newId: nat -> Uuid, now: int)
    ensures Evolves(st.organizations, AfterStep1(st, user, body, newId, now).store.organizations)
  {
    var r := AfterStep1(st, user, body, newId, now);
    if r.store != st {
      var orgs := r.store.organizations;
      assert forall j :: 0 <= j < |st.organizations| ==> orgs[j] == st.organizations[j];
    }
  }

  lemma Step2Evolves(st: Store, user: Uuid, body: Body, newId: nat -> Uuid, now: int)
    ensures Evolves(st.organizations, AfterStep2(st, user, body, newId, now).store.organizations)
  {
    var r := AfterStep2(st, user, body, newId, now);
    if r.reply == Redirect(StepThree, None) {
      var i := NewestOwned(st.organizations, user, false).value;
      Step2Effect(st, user, body, newId, now);
    }
  }

  lemma Step3Evolves(st: Store, user: Uuid, body: Body, newId: nat -> Uuid, now: int)
    ensures Evolves(st.organizations, AfterStep3(st, user, body, newId, now).store.organizations)
  {
    var r := AfterStep3(st, user, body, newId, now);
    if r.reply == Redirect(Complete, None) {
      Step3Effect(st, user, body, newId, now);
    }
  }

  /** Every submit and every skip evolves the organization table. */
  lemma SubmitEvolves(st: Store, user: Option<Uuid>, param: Option<string>, body: Body, newId: nat -> Uuid, now: int)
    ensures Evolves(st.organizations, AfterSubmit(st, user, param, body, newId, now).store.organizations)
    ensures Evolves(st.organizations, AfterSkip(st, user, now).store.organizations)
  {
    if user.Some? {
      var step := ParseInt(StepParam(param));
      if step == Num(1) {
        Step1Evolves(st, user.value, body, newId, now);
      } else if step == Num(2) {
        Step2Evolves(st, user.value, body, newId, now);
      } else if step == Num(3) {
        Step3Evolves(st, user.value, body, newId, now);
      }
      var found := NewestOwned(st.organizations, user.value, true);
      if found.Some? {
        SetProgressEvolves(st, found.value, true, 5, now);
      }
    }
  }

  /** Organization slugs stay unique through every submit and skip. */
  lemma EvolvesKeepsSlugsUnique(orgs: seq<Organization>, orgs': seq<Organization>)
    requires Evolves(orgs, orgs') && UniqueOrgSlugs(orgs)
    ensures UniqueOrgSlugs(orgs')
  {
    forall i, j | 0 <= i < j < |orgs'|
      ensures orgs'[i].slug != orgs'[j].slug
    {
      if j == |orgs| {
        assert orgs'[i].slug == orgs[i].slug;
      }
    }
  }

  /** No submit and no skip ever clears `onboarding_completed`. */
  lemma EvolvesKeepsCompletion(orgs: seq<Organization>, orgs': seq<Organization>, j: nat)
    requires Evolves(orgs, orgs') && j < |orgs| && orgs[j].completed
    ensures j < |orgs'| && orgs'[j].completed
  {
  }

  /** The steps a submit or skip writes are 2, 3, 4 and 5: starting from
      steps in 1..5 (1 is the column's default), they stay there. */
  lemma EvolvesKeepsStepRange(orgs: seq<Organization>, orgs': seq<Organization>)
    requires Evolves(orgs, orgs')
    requires forall j :: 0 <= j < |orgs| ==> 1 <= orgs[j].step <= 5
    ensures forall j :: 0 <= j < |orgs'| ==> 1 <= orgs'[j].step <= 5
  {
  }
}
