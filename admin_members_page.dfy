/** The admin members page: the search/role/status filter over the loaded
    roster, and the request the member form sends. */
module AdminMembersPage {

  import opened Common
  import Text
  import Js

  datatype Member = Member(
    id: string,
    name: string,
    wowClass: string,
    specialization: string,
    role: string,
    itemLevel: Option<int>,
    raiderioScore: Option<int>,
    status: string,
    isOfficer: bool)

  /** The search: name, class or specialization contains the term, ignoring
      case. */
  predicate MatchesSearch(m: Member, term: string) {
    Text.ContainsIgnoringCase(m.name, term)
    || Text.ContainsIgnoringCase(m.wowClass, term)
    || Text.ContainsIgnoringCase(m.specialization, term)
  }

  /** Whether a member is listed: an empty term, and the role or status
      'all', switch their filter off. */
  predicate Listed(m: Member, term: string, role: string, status: string) {
    (term == "" || MatchesSearch(m, term))
    && (role == "all" || m.role == role)
    && (status == "all" || m.status == status)
  }

  function ListedFilter(term: string, role: string, status: string): Member -> bool {
    (m: Member) => Listed(m, term, role, status)
  }

  /** `filterMembers` (lines 71-90): up to three successive filters, each
      replacing `filtered`. The result is the members that pass all three,
      in roster order. */
  method FilterMembers(members: seq<Member>, searchTerm: string, filterRole: string, filterStatus: string)
    returns (filtered: seq<Member>)
    ensures filtered == Filter(members, ListedFilter(searchTerm, filterRole, filterStatus))
  {
    var listed := ListedFilter(searchTerm, filterRole, filterStatus);
    // The members the filters applied so far let through.
    var sofar: Member -> bool := _ => true;
    filtered := members;
    FilterAll(members, sofar);
    if searchTerm != "" {
      var search := (m: Member) => MatchesSearch(m, searchTerm);
      var next := (m: Member) => MatchesSearch(m, searchTerm);
      FilterFilter(members, sofar, search, next);
      filtered, sofar := Filter(filtered, search), next;
    }
    if filterRole != "all" {
      var byRole := (m: Member) => m.role == filterRole;
      var next := (m: Member) => sofar(m) && m.role == filterRole;
      FilterFilter(members, sofar, byRole, next);
      filtered, sofar := Filter(filtered, byRole), next;
    }
    if filterStatus != "all" {
      var byStatus := (m: Member) => m.status == filterStatus;
      var next := (m: Member) => sofar(m) && m.status == filterStatus;
      FilterFilter(members, sofar, byStatus, next);
      filtered, sofar := Filter(filtered, byStatus), next;
    }
    assert forall i :: 0 <= i < |members| ==> sofar(members[i]) == listed(members[i]);
    FilterCongruent(members, sofar, listed);
  }

  /** A member is listed iff it is on the roster and passes every enabled
      filter; nobody appears more often than on the roster. */
  lemma ListedMembers(members: seq<Member>, term: string, role: string, status: string)
    ensures var f := Filter(members, ListedFilter(term, role, status));
      && multiset(f) <= multiset(members)
      && forall m :: m in f <==> m in members && Listed(m, term, role, status)
  {
    var listed := ListedFilter(term, role, status);
    var f := Filter(members, listed);
    forall m | m in f
      ensures m in members && Listed(m, term, role, status)
    {
      assert m in multiset(f);
      var i :| 0 <= i < |f| && f[i] == m;
      assert listed(f[i]);
    }
    forall m | m in members && Listed(m, term, role, status)
      ensures m in f
    {
      assert listed(m);
    }
  }

  // ---------------------------------------------------------------------
  // The member form

  /** The form's fields; the numbers are the text of their inputs. */
  datatype Form = Form(
    name: string,
    wowClass: string,
    specialization: string,
    role: string,
    itemLevel: string,
    raiderioScore: string,
    status: string,
    isOfficer: bool)

  datatype Verb = Post | Put

  /** The JSON body sent; `id` is present only when editing. A NaN parse
      is serialised as null, so a number field is Option<int>. */
  datatype Payload = Payload(
    id: Option<string>,
    name: string,
    wowClass: string,
    specialization: string,
    role: string,
    itemLevel: Option<int>,
    raiderioScore: Option<int>,
    status: string,
    isOfficer: bool)

  datatype Request = Request(verb: Verb, url: string, body: Payload)

  /** `s ? parseInt(s) : null`. */
  function NumberField(s: string): (r: Option<int>)
    ensures s == "" ==> r == None
    ensures s != "" ==> r == Js.ParseInt(s)
  {
    if s == "" then None else Js.ParseInt(s)
  }

  /** The request `handleSubmit` (lines 92-122) sends for the form, given
      the member being edited, if any. */
  function Submit(editing: Option<Member>, form: Form): (r: Request)
    ensures r.url == "/api/members"
    ensures r.verb == Put <==> editing.Some?
    ensures editing.Some? ==> r.body.id == Some(editing.value.id)
    ensures editing.None? ==> r.body.id == None
    ensures r.body.itemLevel == NumberField(form.itemLevel)
    ensures r.body.raiderioScore == NumberField(form.raiderioScore)
    ensures r.body.name == form.name && r.body.role == form.role && r.body.status == form.status
    ensures r.body.wowClass == form.wowClass && r.body.specialization == form.specialization
    ensures r.body.isOfficer == form.isOfficer
  {
    var id := match editing case Some(m) => Some(m.id) case None => None;
    Request(if editing.Some? then Put else Post, "/api/members",
            Payload(id, form.name, form.wowClass, form.specialization, form.role,
                    NumberField(form.itemLevel), NumberField(form.raiderioScore),
                    form.status, form.isOfficer))
  }

  /** `n?.toString() || ''`. */
  function NumberText(n: Option<int>): (s: string)
    ensures n.None? <==> s == ""
  {
    match n
    case Some(v) => Js.ShowInt(v)
    case None => ""
  }

  /** The form `handleEdit` (lines 124-137) fills in for a member. */
  function EditForm(m: Member): Form
  {
    Form(m.name, m.wowClass, m.specialization, m.role, NumberText(m.itemLevel),
         NumberText(m.raiderioScore), m.status, m.isOfficer)
  }

  /** Saving an unchanged edit form sends the member back as it was, under
      its own id: the number fields survive the text round trip (0
      included, since "0" is a non-empty string). */
  lemma EditUnchangedRoundTrip(m: Member)
    ensures var body := Submit(Some(m), EditForm(m)).body;
      && body == Payload(Some(m.id), m.name, m.wowClass, m.specialization, m.role,
                         m.itemLevel, m.raiderioScore, m.status, m.isOfficer)
  {
    if m.itemLevel.Some? {
      Js.ParseIntShowInt(m.itemLevel.value);
    }
    if m.raiderioScore.Some? {
      Js.ParseIntShowInt(m.raiderioScore.value);
    }
  }
}
