/** The public roster section: the role filter buttons with their counts,
    the filtered roster, and the class colour and role icon of a card. */
module MembersSection {

  import opened Common

  datatype Member = Member(id: string, name: string, wowClass: string, role: string, isOfficer: bool)

  /** Whether a member is shown under a filter key (lines 66-70): 'all'
      shows everyone, 'officer' the officers, any other key the members
      with that role. */
  predicate Shown(m: Member, key: string) {
    if key == "all" then true
    else if key == "officer" then m.isOfficer
    else m.role == key
  }

  function ShownUnder(key: string): Member -> bool {
    (m: Member) => Shown(m, key)
  }

  /** `filteredMembers`: the members shown under the active key, in roster
      order. */
  function FilteredMembers(members: seq<Member>, key: string): seq<Member>
  {
    Filter(members, ShownUnder(key))
  }

  datatype FilterButton = FilterButton(key: string, caption: string, count: nat)

  function HasRole(role: string): Member -> bool {
    (m: Member) => m.role == role
  }

  function IsOfficer(m: Member): bool { m.isOfficer }

  /** The `filters` buttons (lines 72-78). */
  function Filters(members: seq<Member>): (fs: seq<FilterButton>)
    ensures |fs| == 5
  {
    [ FilterButton("all", "Alle", |members|),
      FilterButton("tank", "Tanks", Count(members, HasRole("tank"))),
      FilterButton("heal", "Healer", Count(members, HasRole("heal"))),
      FilterButton("dps", "DPS", Count(members, HasRole("dps"))),
      FilterButton("officer", "Officer", Count(members, IsOfficer)) ]
  }

  /** Every button's badge is the number of cards its key shows, and every
      shown card passes the key's test. */
  lemma BadgesMatchCards(members: seq<Member>)
    ensures forall b :: b in Filters(members) ==> |FilteredMembers(members, b.key)| == b.count
    ensures forall key, i :: 0 <= i < |FilteredMembers(members, key)| ==> Shown(FilteredMembers(members, key)[i], key)
  {
    var fs := Filters(members);
    forall b | b in fs
      ensures |FilteredMembers(members, b.key)| == b.count
    {
      var k :| 0 <= k < |fs| && fs[k] == b;
      BadgeCount(members, k);
    }
    forall key, i | 0 <= i < |FilteredMembers(members, key)|
      ensures Shown(FilteredMembers(members, key)[i], key)
    {
      assert ShownUnder(key)(FilteredMembers(members, key)[i]);
    }
  }

  lemma BadgeCount(members: seq<Member>, k: nat)
    requires k < 5
    ensures |FilteredMembers(members, Filters(members)[k].key)| == Filters(members)[k].count
  {
    var b := Filters(members)[k];
    if k == 0 {
      assert b == FilterButton("all", "Alle", |members|);
      AllBadge(members);
    } else if k == 4 {
      assert b == FilterButton("officer", "Officer", Count(members, IsOfficer));
      OfficerBadge(members);
    } else {
      var role := if k == 1 then "tank" else if k == 2 then "heal" else "dps";
      assert b == FilterButton(b.key, b.caption, Count(members, HasRole(role))) && b.key == role;
      RoleBadge(members, role);
    }
  }

  lemma AllBadge(members: seq<Member>)
    ensures |FilteredMembers(members, "all")| == |members|
  {
    FilterAll(members, ShownUnder("all"));
  }

  lemma OfficerBadge(members: seq<Member>)
    ensures FilteredMembers(members, "officer") == Filter(members, IsOfficer)
  {
    FilterCongruent(members, ShownUnder("officer"), IsOfficer);
  }

  lemma RoleBadge(members: seq<Member>, role: string)
    requires role != "all" && role != "officer"
    ensures FilteredMembers(members, role) == Filter(members, HasRole(role))
  {
    FilterCongruent(members, ShownUnder(role), HasRole(role));
  }

  /** The key 'officer' goes by the officer flag, not by the role: a member
      whose role field reads "officer" but who is not an officer is not
      shown under it. */
  lemma OfficerKeyUsesFlag(m: Member)
    requires m.role == "officer" && !m.isOfficer
    ensures FilteredMembers([m], "officer") == []
  {
  }

  // ---------------------------------------------------------------------
  // Card decoration

  const ClassColors: map<string, string> := map[
    "warrior" := "bg-amber-600", "paladin" := "bg-pink-500", "hunter" := "bg-green-600",
    "rogue" := "bg-yellow-500", "priest" := "bg-gray-300", "shaman" := "bg-blue-600",
    "mage" := "bg-cyan-400", "warlock" := "bg-purple-600", "monk" := "bg-green-400",
    "druid" := "bg-orange-600", "dh" := "bg-purple-800", "dk" := "bg-red-800",
    "evoker" := "bg-emerald-500"]

  const FallbackColor := "bg-gray-600"

  /** `classColors[member.class] || 'bg-gray-600'` (line 119). */
  function ClassColor(wowClass: string): (c: string)
    ensures wowClass in ClassColors ==> c == ClassColors[wowClass]
    ensures wowClass !in ClassColors ==> c == FallbackColor
  {
    if wowClass in ClassColors then ClassColors[wowClass] else FallbackColor
  }

  /** The fallback colour is nobody's own colour, so a card is gray-600
      iff its class is unknown. */
  lemma FallbackOnlyForUnknown(wowClass: string)
    ensures ClassColor(wowClass) == FallbackColor <==> wowClass !in ClassColors
  {
    if wowClass in ClassColors {
      assert FallbackColor !in ClassColors.Values;
    }
  }

  datatype Icon = ShieldIcon | HeartIcon | SwordIcon | UsersIcon

  /** `roleIcons[member.role] || Sword` (line 118). */
  function RoleIcon(role: string): (i: Icon)
    ensures role == "tank" ==> i == ShieldIcon
    ensures role == "heal" ==> i == HeartIcon
    ensures role == "officer" ==> i == UsersIcon
    ensures role !in {"tank", "heal", "officer"} ==> i == SwordIcon
  {
    if role == "tank" then ShieldIcon
    else if role == "heal" then HeartIcon
    else if role == "dps" then SwordIcon
    else if role == "officer" then UsersIcon
    else SwordIcon
  }
}
