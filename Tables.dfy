/**
 * The static reference tables of the extractor and their lookups: the
 * session-to-year map, the UN regional groups, and the membership tables of
 * the five China-led organisations (FOCAC, CASCF, SCO, BRI, CELAC), plus the
 * SCO observer and dialogue-partner tables. Each membership table maps a
 * country name to its join year; only BRI has an exit table.
 *
 * The region and membership tables hold a representative subset of the
 * source's entries, with the source's values.
 */
module Tables {
  import opened Wrappers
  import Format

  // ---------------------------------------------------------------------------
  // Sessions and years
  // ---------------------------------------------------------------------------

  /** The session directory name `f"session_{s}"`. */
  function SessionKey(s: nat): (key: string)
    ensures |key| > 8 && key[..8] == "session_" && key[8..] == Format.Decimal(s)
    ensures Format.ParseDecimal(key[8..]) == s
  {
    Format.ParseDecimalRoundTrip(s);
    "session_" + Format.Decimal(s)
  }

  lemma SessionKeyInjective(a: nat, b: nat)
    requires SessionKey(a) == SessionKey(b)
    ensures a == b
  {
    assert SessionKey(a)[8..] == SessionKey(b)[8..];
  }

  /** The directory names of the sessions 48 to 79. */
  const SessionKeys: set<string> := set s: nat | 48 <= s < 80 :: SessionKey(s)

  /** The session number written in a session directory name. */
  function SessionNumber(key: string): (s: nat)
    requires key in SessionKeys
    ensures 48 <= s < 80 && SessionKey(s) == key
  {
    var s: nat :| 48 <= s < 80 && SessionKey(s) == key;
    Format.ParseDecimal(key[8..])
  }

  /** `SESSION_YEAR_MAP`: sessions 48 to 79, session s opening in year 1945 + s. */
  const SessionYearMap: map<string, int> :=
    map key | key in SessionKeys :: 1945 + SessionNumber(key)

  /**
   * `get_year(session)`: the year the session table gives a session
   * directory, `None` for a directory it does not list.
   */
  function GetYear(tables: Reference, session: string): Option<int> {
    if session in tables.sessionYears then Some(tables.sessionYears[session]) else None
  }

  /**
   * With the extractor's tables, a year is known exactly for the sessions
   * 48 to 79, and it is always one of 1993 to 2024.
   */
  lemma SourceYear(session: string)
    ensures var year := GetYear(Source, session);
      && (year.Some? ==> 1993 <= year.value <= 2024)
      && (year.Some? <==> exists s: nat :: 48 <= s < 80 && SessionKey(s) == session)
  {
    assert Source.sessionYears == SessionYearMap;
    SessionYearsInRange();
  }

  /** Each entry of the session table is the key's session number plus 1945. */
  lemma SessionYearEntry(key: string)
    requires key in SessionYearMap
    ensures exists s: nat :: 48 <= s < 80 && SessionKey(s) == key && SessionYearMap[key] == 1945 + s
  {
    var s := SessionNumber(key);
  }

  lemma SessionYearsInRange()
    ensures forall key :: key in SessionYearMap ==> 1993 <= SessionYearMap[key] <= 2024
  {
    forall key | key in SessionYearMap ensures 1993 <= SessionYearMap[key] <= 2024 {
      SessionYearEntry(key);
    }
  }

  /** The session table lists `session_s` exactly for the sessions 48 to 79, with year `1945 + s`. */
  lemma SessionYearMapAt(s: nat)
    ensures SessionKey(s) in SessionYearMap <==> 48 <= s < 80
    ensures SessionKey(s) in SessionYearMap ==> SessionYearMap[SessionKey(s)] == 1945 + s
  {
    var key := SessionKey(s);
    assert 48 <= s < 80 ==> key in SessionKeys;
    if key in SessionKeys {
      SessionKeyInjective(s, SessionNumber(key));
    }
  }

  /** `get_year("session_s")` is `1945 + s` for exactly the sessions 48 to 79. */
  lemma GetYearOfSession(s: nat)
    ensures GetYear(Source, SessionKey(s)) == if 48 <= s <= 79 then Some(1945 + s) else None
  {
    SessionYearMapAt(s);
    assert Source.sessionYears == SessionYearMap;
  }

  // ---------------------------------------------------------------------------
  // UN regional groups
  // ---------------------------------------------------------------------------

  /** The names of the UN regional groups the region table uses. */
  const RegionGroups: set<string> :=
    {"Africa", "Asia-Pacific", "Eastern Europe", "GRULAC", "WEOG", "Observer"}

  /** `REGION_MAP` (subset). */
  const RegionMap: map<string, string> := map[
    "Algeria" := "Africa", "Côte d'Ivoire" := "Africa", "Egypt" := "Africa",
    "Gambia" := "Africa", "Malawi" := "Africa", "South Sudan" := "Africa",
    "Bangladesh" := "Asia-Pacific", "Cambodia" := "Asia-Pacific", "China" := "Asia-Pacific",
    "India" := "Asia-Pacific", "Lao People's Democratic Republic" := "Asia-Pacific",
    "Pakistan" := "Asia-Pacific", "Philippines" := "Asia-Pacific",
    "Belarus" := "Eastern Europe", "Estonia" := "Eastern Europe", "Latvia" := "Eastern Europe",
    "Lithuania" := "Eastern Europe", "Russian Federation" := "Eastern Europe",
    "Barbados" := "GRULAC", "Brazil" := "GRULAC", "Cuba" := "GRULAC", "Panama" := "GRULAC",
    "Italy" := "WEOG", "Türkiye" := "WEOG", "United States of America" := "WEOG",
    "Holy See" := "Observer", "State of Palestine" := "Observer"
  ]

  /** `get_region(country)`: the country's regional group, the literal "Unknown" for an unlisted country. */
  function GetRegion(tables: Reference, country: string): string {
    if country in tables.regions then tables.regions[country] else "Unknown"
  }

  /**
   * With the extractor's tables the answer is one of the regional groups or
   * "Unknown", and it is "Unknown" exactly when the country is not listed,
   * because no group is called "Unknown".
   */
  lemma SourceRegion(country: string)
    ensures var region := GetRegion(Source, country);
      && (region in RegionGroups || region == "Unknown")
      && (region == "Unknown" <==> country !in RegionMap)
      && (country in RegionMap ==> region == RegionMap[country])
  {
    assert RegionMap.Values <= RegionGroups by {
      forall v | v in RegionMap.Values ensures v in RegionGroups {
        var c :| c in RegionMap && RegionMap[c] == v;
      }
    }
    assert "Unknown" !in RegionGroups;
  }

  // ---------------------------------------------------------------------------
  // Organisation membership
  // ---------------------------------------------------------------------------

  /** `FOCAC_MEMBERS` (subset): Forum on China-Africa Cooperation, founded 2000. */
  const FocacMembers: map<string, int> := map[
    "Algeria" := 2000, "Côte d'Ivoire" := 2000, "Egypt" := 2000,
    "Gambia" := 2016, "Malawi" := 2008, "South Sudan" := 2011
  ]

  /** `CASCF_MEMBERS` (subset): China-Arab States Cooperation Forum, founded 2004. */
  const CascfMembers: map<string, int> := map[
    "Algeria" := 2004, "Egypt" := 2004, "State of Palestine" := 2004, "Palestine" := 2004
  ]

  /** `SCO_MEMBERS` (subset): Shanghai Cooperation Organisation. */
  const ScoMembers: map<string, int> := map[
    "China" := 2001, "Russian Federation" := 2001, "India" := 2017,
    "Pakistan" := 2017, "Belarus" := 2024
  ]

  /** `SCO_OBSERVERS`. */
  const ScoObservers: map<string, int> := map["Mongolia" := 2004, "Afghanistan" := 2012]

  /** `SCO_DIALOGUE_PARTNERS` (subset). */
  const ScoDialoguePartners: map<string, int> := map[
    "Sri Lanka" := 2010, "Türkiye" := 2013, "Cambodia" := 2015, "Egypt" := 2022
  ]

  /** `BRI_MEMBERS` (subset): Belt and Road Initiative memoranda, from 2013. */
  const BriMembers: map<string, int> := map[
    "Belarus" := 2013, "Cambodia" := 2013, "China" := 2013, "Pakistan" := 2013,
    "Egypt" := 2016, "Côte d'Ivoire" := 2017, "Estonia" := 2017, "Latvia" := 2017,
    "Lithuania" := 2017, "Panama" := 2017, "Philippines" := 2017,
    "Algeria" := 2018, "Lao People's Democratic Republic" := 2018,
    "Bangladesh" := 2019, "Barbados" := 2019, "Cuba" := 2019, "Italy" := 2019
  ]

  /** `BRI_EXITED`: the countries that have left the BRI, with the exit year. */
  const BriExited: map<string, int> := map[
    "Estonia" := 2022, "Latvia" := 2022, "Lithuania" := 2021,
    "Italy" := 2023, "Philippines" := 2023, "Panama" := 2025
  ]

  /** `CELAC_MEMBERS` (subset): China-CELAC Forum, established 2014. */
  const CelacMembers: map<string, int> := map[
    "Barbados" := 2014, "Brazil" := 2014, "Cuba" := 2014, "Panama" := 2014
  ]

  /**
   * The tables a run consults: session years, regions, and the membership
   * tables of the five organisations with the BRI exits.
   */
  datatype Reference = Reference(
    sessionYears: map<string, int>,
    regions: map<string, string>,
    focac: map<string, int>,
    cascf: map<string, int>,
    sco: map<string, int>,
    bri: map<string, int>,
    briExited: map<string, int>,
    celac: map<string, int>)

  /** The module-level tables of the extractor. */
  const Source: Reference :=
    Reference(SessionYearMap, RegionMap, FocacMembers, CascfMembers, ScoMembers, BriMembers, BriExited, CelacMembers)

  /** `d.get(key)`: the entry when the key is listed, `None` otherwise. */
  function Lookup(table: map<string, int>, key: string): (r: Option<int>)
    ensures r.Some? <==> key in table
    ensures r.Some? ==> r.value == table[key]
  {
    if key in table then Some(table[key]) else None
  }

  /** The dictionary `get_org_membership` returns: one join year or `None` per table. */
  datatype JoinYears = JoinYears(
    focac: Option<int>,
    cascf: Option<int>,
    sco: Option<int>,
    scoObserver: Option<int>,
    scoDialogue: Option<int>,
    bri: Option<int>,
    celac: Option<int>)

  /** `get_org_membership(country)`: each organisation's join year for `country`. */
  function GetOrgMembership(country: string): (r: JoinYears)
    ensures r.focac.Some? <==> country in FocacMembers
    ensures r.cascf.Some? <==> country in CascfMembers
    ensures r.sco.Some? <==> country in ScoMembers
    ensures r.scoObserver.Some? <==> country in ScoObservers
    ensures r.scoDialogue.Some? <==> country in ScoDialoguePartners
    ensures r.bri.Some? <==> country in BriMembers
    ensures r.celac.Some? <==> country in CelacMembers
    ensures r.focac.Some? ==> r.focac.value == FocacMembers[country]
    ensures r.cascf.Some? ==> r.cascf.value == CascfMembers[country]
    ensures r.sco.Some? ==> r.sco.value == ScoMembers[country]
    ensures r.scoObserver.Some? ==> r.scoObserver.value == ScoObservers[country]
    ensures r.scoDialogue.Some? ==> r.scoDialogue.value == ScoDialoguePartners[country]
    ensures r.bri.Some? ==> r.bri.value == BriMembers[country]
    ensures r.celac.Some? ==> r.celac.value == CelacMembers[country]
  {
    JoinYears(
      Lookup(FocacMembers, country),
      Lookup(CascfMembers, country),
      Lookup(ScoMembers, country),
      Lookup(ScoObservers, country),
      Lookup(ScoDialoguePartners, country),
      Lookup(BriMembers, country),
      Lookup(CelacMembers, country))
  }

  /** The exception Python raises in these lookups. */
  datatype PyError = TypeError

  /**
   * `is_member_at_time(country, members, year, exits)`. Whether `country` had
   * joined by `year` and not yet left. An exit table that is absent or empty
   * is falsy in Python and is ignored. When the session's year is unknown
   * (`None`), comparing it with a join year raises `TypeError`, which happens
   * exactly when the country is listed.
   */
  function IsMemberAtTime(country: string, members: map<string, int>, year: Option<int>,
                          exits: Option<map<string, int>>): (r: Result<bool, PyError>)
    ensures year.None? ==> (r.Err? <==> country in members) && (r.Ok? ==> !r.value)
    ensures year.Some? ==> r == Ok(
      && country in members
      && members[country] <= year.value
      && (exits.None? || country !in exits.value || year.value < exits.value[country]))
  {
    match Lookup(members, country)
    case None => Ok(false)
    case Some(joinYear) =>
      if year.None? then Err(TypeError)
      else if year.value < joinYear then Ok(false)
      else if exits.Some? && |exits.value| > 0 then
        match Lookup(exits.value, country)
        case Some(exitYear) => Ok(year.value < exitYear)
        case None => Ok(true)
      else Ok(true)
  }

  /**
   * Membership is monotone in the year until the exit year: a member at `y1`
   * is still a member at any later `y2` that is before its exit.
   */
  lemma MembershipMonotone(country: string, members: map<string, int>,
                           exits: Option<map<string, int>>, y1: int, y2: int)
    requires y1 <= y2
    requires exits.None? || country !in exits.value || y2 < exits.value[country]
    requires IsMemberAtTime(country, members, Some(y1), exits) == Ok(true)
    ensures IsMemberAtTime(country, members, Some(y2), exits) == Ok(true)
  {
  }

  /** From its exit year on, a country is no longer a member, whatever the year. */
  lemma MembershipEndsAtExit(country: string, members: map<string, int>,
                             exits: map<string, int>, y: int)
    requires country in exits && y >= exits[country]
    ensures IsMemberAtTime(country, members, Some(y), Some(exits)) == Ok(false)
  {
  }

  /** Membership at speech time implies ever-membership with a join year no later than the year. */
  lemma AtSpeechImpliesJoined(country: string, members: map<string, int>,
                              exits: Option<map<string, int>>, y: int)
    requires IsMemberAtTime(country, members, Some(y), exits) == Ok(true)
    ensures Lookup(members, country).Some? && Lookup(members, country).value <= y
  {
  }

  /** The BRI exit entries all postdate the same country's BRI join year. */
  lemma BriExitsFollowJoins()
    ensures forall c :: c in BriExited ==> c in BriMembers && BriMembers[c] < BriExited[c]
  {
  }
}
