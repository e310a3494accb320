/**
 * The territory-code reconciliation engine of postal_address/territory.py:
 * the static alias tables, the sets of supported codes, code normalization,
 * and the walks up and down the subdivision tree of ISO 3166-2.
 *
 * The ISO 3166 database (pycountry in territory.py) is a `Database` value:
 * the countries keyed by alpha-2 code and the subdivisions keyed by code.
 * The six alias tables are a `Tables` value; territory.py always uses its
 * own literal tables, `SourceTables`, which `SourceTablesValid` shows to
 * have every property the operations rely on. `WellFormed` states what the
 * code relies on about the database.
 */
module Territory {
  import opened Common
  import opened Text

  // ----------------------------------------------------------------------
  // The database
  // ----------------------------------------------------------------------

  datatype Country = Country(alpha2: string, name: string, commonName: Option<string>)

  /** An ISO 3166-2 subdivision; `kind` is its type, such as "Department". */
  datatype Subdivision = Subdivision(
    code: string, name: string, kind: string,
    parentCode: Option<string>, countryCode: string)

  datatype Database = Database(
    countries: map<string, Country>,
    subdivisions: map<string, Subdivision>)

  /** An entity listed by the parent walk. `Missing` is the `None` that a
      country lookup returns when it finds nothing. */
  datatype Territory =
    | CountryEntity(country: Country)
    | SubdivisionEntity(subdivision: Subdivision)
    | Missing

  predicate IsCodeChar(c: char)
  {
    'A' <= c <= 'Z' || '0' <= c <= '9' || c == '-'
  }

  /** ISO codes are non-empty and made of upper-case letters, digits and
      hyphens. */
  predicate IsCode(s: string)
  {
    s != [] && forall i | 0 <= i < |s| :: IsCodeChar(s[i])
  }

  /** Country codes are two characters long and key their country. */
  predicate CountriesShaped(db: Database)
  {
    forall c | c in db.countries ::
      |c| == 2 && IsCode(c) && db.countries[c].alpha2 == c
  }

  /** A parent, when present, is a subdivision of the same country. */
  predicate ParentInCountry(db: Database, s: string)
    requires s in db.subdivisions
  {
    match db.subdivisions[s].parentCode
    case None => true
    case Some(p) =>
      p in db.subdivisions && db.subdivisions[p].countryCode == db.subdivisions[s].countryCode
  }

  /** Subdivision codes are longer than country codes, start with the code
      of their country and key their subdivision. */
  predicate SubdivisionsShaped(db: Database)
  {
    forall s | s in db.subdivisions ::
      && |s| > 2 && IsCode(s)
      && db.subdivisions[s].code == s
      && db.subdivisions[s].countryCode == s[..2]
      && s[..2] in db.countries
      && ParentInCountry(db, s)
  }

  /** `rank` orders the subdivisions so that every parent comes before its
      children: the parent chains are acyclic. */
  ghost predicate Ranked(subs: map<string, Subdivision>, rank: map<string, nat>)
  {
    forall s | s in subs ::
      && s in rank && rank[s] < |subs|
      && (subs[s].parentCode.Some? ==>
            subs[s].parentCode.value in rank && rank[subs[s].parentCode.value] < rank[s])
  }

  // ----------------------------------------------------------------------
  // The alias tables
  // ----------------------------------------------------------------------

  /** The six alias tables, each mapping a code to the code it stands for. */
  datatype Tables = Tables(
    /** `FOREIGN_TERRITORIES_MAPPING`: a foreign territory to its country. */
    foreign: map<string, string>,
    /** `COUNTRY_ALIASES`: European Commission codes to ISO 3166-1 ones. */
    countryAliases: map<string, string>,
    /** `SUBDIVISION_COUNTRIES`: a subdivision to its own country code. */
    subdivisionCountries: map<string, string>,
    /** `SUBDIVISION_ALIASES`: a subdivision to its twin in another country. */
    subdivisionAliases: map<string, string>,
    /** `RESERVED_COUNTRY_CODES`: reserved codes to the country they denote. */
    reserved: map<string, string>,
    /** `COUNTRY_ALIAS_TO_SUBDIVISION`: reserved codes denoting a subdivision. */
    aliasToSubdivision: map<string, string>)

  const ForeignTerritories: map<string, string> := map[
    "CC" := "AU", "HM" := "AU", "JE" := "BR", "HK" := "CN", "MO" := "CN",
    "FO" := "DK", "AX" := "FI", "AQ" := "FR", "BL" := "FR", "GF" := "FR",
    "GP" := "FR", "GY" := "FR", "MF" := "FR", "MQ" := "FR", "NC" := "FR",
    "PF" := "FR", "PM" := "FR", "RE" := "FR", "TF" := "FR", "WF" := "FR",
    "YT" := "FR", "GI" := "GB", "IM" := "GB", "IO" := "GB", "PN" := "GB",
    "SH" := "GB", "VG" := "GB", "BQ" := "NL", "SX" := "NL", "BV" := "NO",
    "SJ" := "NO", "AS" := "US", "GU" := "US", "MP" := "US", "VI" := "US"]

  const CountryAliasMap: map<string, string> := map["UK" := "GB", "EL" := "GR"]

  const SubdivisionCountries: map<string, string> := map[
    "CN-TW" := "TW", "CN-HK" := "HK", "CN-MO" := "MO", "FI-01" := "AX",
    "FR-BL" := "BL", "FR-GF" := "GF", "FR-GP" := "GP", "FR-MF" := "MF",
    "FR-MQ" := "MQ", "FR-NC" := "NC", "FR-PF" := "PF", "FR-PM" := "PM",
    "FR-RE" := "RE", "FR-TF" := "TF", "FR-WF" := "WF", "FR-YT" := "YT",
    "NL-AW" := "AW", "NL-CW" := "CW", "NL-SX" := "SX", "NO-21" := "SJ",
    "NO-22" := "SJ", "US-AS" := "AS", "US-GU" := "GU", "US-MP" := "MP",
    "US-PR" := "PR", "US-UM" := "UM", "US-VI" := "VI"]

  const SubdivisionAliases: map<string, string> :=
    map["NL-BQ1" := "BQ-BO", "NL-BQ2" := "BQ-SA", "NL-BQ3" := "BQ-SE"]

  const ReservedCountryCodes: map<string, string> :=
    map["DG" := "IO", "FX" := "FR", "EA" := "ES"]

  const CountryAliasToSubdivision: map<string, string> :=
    map["AC" := "SH-AC", "CP" := "FR-CP", "IC" := "ES-CN", "TA" := "SH-TA"]

  /** The literal tables of territory.py. */
  const SourceTables := Tables(ForeignTerritories, CountryAliasMap, SubdivisionCountries,
    SubdivisionAliases, ReservedCountryCodes, CountryAliasToSubdivision)

  /** `table.get(code, code)`. */
  function Lookup(table: map<string, string>, code: string): string
  {
    if code in table then table[code] else code
  }

  predicate CountryKeyed(m: map<string, string>)
  {
    forall k | k in m :: |k| == 2
  }

  predicate CodeKeyed(m: map<string, string>)
  {
    forall k | k in m :: IsCode(k)
  }

  predicate SubdivisionKeyed(m: map<string, string>)
  {
    forall k | k in m :: |k| > 2
  }

  predicate CountryValued(m: map<string, string>)
  {
    forall k | k in m :: |m[k]| == 2
  }

  predicate SubdivisionValued(m: map<string, string>)
  {
    forall k | k in m :: |m[k]| > 2
  }

  /** No value of `m` is a key of `other`: looking a value of `m` up in
      `other` leaves it unchanged. */
  predicate ValuesOutside(m: map<string, string>, other: map<string, string>)
  {
    forall k | k in m :: m[k] !in other
  }

  /** No key of `m` is a key of `other`. */
  predicate KeysOutside(m: map<string, string>, other: map<string, string>)
  {
    forall k | k in m :: k !in other
  }

  /** The country part of no key of `m` is in `codes`. */
  predicate PrefixesOutside(m: map<string, string>, codes: set<string>)
  {
    forall k | k in m && |k| >= 2 :: k[..2] !in codes
  }

  /** What the operations rely on about the tables: country tables are keyed
      by two-character codes and subdivision tables by longer ones, and no
      table value is a key of a table applied after it, so that every
      rewrite is final. */
  predicate Valid(t: Tables)
  {
    && CountryKeyed(t.foreign) && CountryKeyed(t.countryAliases)
    && CountryKeyed(t.reserved) && CountryKeyed(t.aliasToSubdivision)
    && CodeKeyed(t.countryAliases) && CodeKeyed(t.reserved) && CodeKeyed(t.aliasToSubdivision)
    && SubdivisionKeyed(t.subdivisionCountries) && SubdivisionKeyed(t.subdivisionAliases)
    && CountryValued(t.foreign) && CountryValued(t.countryAliases) && CountryValued(t.reserved)
    && SubdivisionValued(t.subdivisionAliases)
    && ValuesOutside(t.reserved, t.reserved) && ValuesOutside(t.reserved, t.countryAliases)
    && ValuesOutside(t.countryAliases, t.reserved)
    && ValuesOutside(t.countryAliases, t.countryAliases)
    && ValuesOutside(t.countryAliases, t.foreign)
    && ValuesOutside(t.subdivisionAliases, t.subdivisionAliases)
    && ValuesOutside(t.subdivisionAliases, t.subdivisionCountries)
    && ValuesOutside(t.subdivisionCountries, t.reserved)
    && ValuesOutside(t.subdivisionCountries, t.countryAliases)
    && ValuesOutside(t.foreign, t.foreign) && ValuesOutside(t.foreign, t.reserved)
    && ValuesOutside(t.foreign, t.countryAliases)
    && KeysOutside(t.subdivisionCountries, t.subdivisionAliases)
    && PrefixesOutside(t.subdivisionCountries, t.subdivisionCountries.Values)
    && PrefixesOutside(t.subdivisionCountries, t.foreign.Keys)
    && PrefixesOutside(t.subdivisionCountries, t.reserved.Keys)
    && PrefixesOutside(t.subdivisionCountries, t.countryAliases.Keys)
  }

  // Facts about the tables of territory.py, one per lemma so that each stays
  // cheap.

  lemma ForeignKeysShort()
    ensures forall k | k in ForeignTerritories :: |k| == 2
  {
  }

  lemma ForeignTargetsShort()
    ensures forall k | k in ForeignTerritories :: |ForeignTerritories[k]| == 2
  {
  }

  lemma ForeignTargetsNotForeign()
    ensures forall k | k in ForeignTerritories :: ForeignTerritories[k] !in ForeignTerritories
  {
  }

  lemma ForeignTargetsNotReserved()
    ensures forall k | k in ForeignTerritories :: ForeignTerritories[k] !in ReservedCountryCodes
  {
  }

  lemma ForeignTargetsNotAliases()
    ensures forall k | k in ForeignTerritories :: ForeignTerritories[k] !in CountryAliasMap
  {
  }

  lemma CountryAliasKeys()
    ensures forall k | k in CountryAliasMap :: |k| == 2 && IsCode(k)
  {
  }

  lemma CountryAliasTargetsShort()
    ensures forall k | k in CountryAliasMap :: |CountryAliasMap[k]| == 2
  {
  }

  lemma CountryAliasTargetsNotReserved()
    ensures forall k | k in CountryAliasMap :: CountryAliasMap[k] !in ReservedCountryCodes
  {
  }

  lemma CountryAliasTargetsNotAliases()
    ensures forall k | k in CountryAliasMap :: CountryAliasMap[k] !in CountryAliasMap
  {
  }

  lemma CountryAliasTargetsNotForeign()
    ensures forall k | k in CountryAliasMap :: CountryAliasMap[k] !in ForeignTerritories
  {
  }

  lemma ReservedKeys()
    ensures forall k | k in ReservedCountryCodes :: |k| == 2 && IsCode(k)
  {
  }

  lemma ReservedTargetsShort()
    ensures forall k | k in ReservedCountryCodes :: |ReservedCountryCodes[k]| == 2
  {
  }

  lemma ReservedTargetsFinal()
    ensures forall k | k in ReservedCountryCodes :: ReservedCountryCodes[k] !in ReservedCountryCodes && ReservedCountryCodes[k] !in CountryAliasMap
  {
  }

  lemma AliasToSubdivisionKeys()
    ensures forall k | k in CountryAliasToSubdivision :: |k| == 2 && IsCode(k)
  {
  }

  lemma SubdivisionCountryKeysLong()
    ensures forall k | k in SubdivisionCountries :: |k| > 2
  {
  }

  lemma SubdivisionCountryTargetsNotReserved()
    ensures forall k | k in SubdivisionCountries :: SubdivisionCountries[k] !in ReservedCountryCodes
  {
  }

  lemma SubdivisionCountryTargetsNotAliases()
    ensures forall k | k in SubdivisionCountries :: SubdivisionCountries[k] !in CountryAliasMap
  {
  }

  lemma SubdivisionAliasKeysLong()
    ensures forall k | k in SubdivisionAliases :: |k| > 2 && |SubdivisionAliases[k]| > 2
  {
  }

  lemma SubdivisionAliasTargetsFinal()
    ensures forall k | k in SubdivisionAliases :: SubdivisionAliases[k] !in SubdivisionAliases
  {
  }

  lemma SubdivisionAliasTargetsNotCountries()
    ensures forall k | k in SubdivisionAliases :: SubdivisionAliases[k] !in SubdivisionCountries
  {
  }

  lemma SubdivisionCountryKeysNotAliases()
    ensures forall k | k in SubdivisionCountries :: k !in SubdivisionAliases
  {
  }

  /** The country parts of the keys of `SUBDIVISION_COUNTRIES`. */
  lemma SubdivisionCountryPrefixes()
    ensures forall k | k in SubdivisionCountries ::
      k[..2] in {"CN", "FI", "FR", "NL", "NO", "US"}
  {
    forall k | k in SubdivisionCountries
      ensures k[..2] in {"CN", "FI", "FR", "NL", "NO", "US"}
    {
      assert k[..2] == [k[0], k[1]];
    }
  }

  lemma SubdivisionCountryPrefixesNotTargets()
    ensures forall k | k in SubdivisionCountries :: k[..2] !in SubdivisionCountries.Values
  {
    SubdivisionCountryPrefixes();
  }

  lemma SubdivisionCountryPrefixesNotForeign()
    ensures forall k | k in SubdivisionCountries :: k[..2] !in ForeignTerritories
  {
    SubdivisionCountryPrefixes();
    OwnersNotForeign();
  }

  /** No country owning a subdivision listed in `SUBDIVISION_COUNTRIES` is itself foreign. */
  lemma OwnersNotForeign()
    ensures forall k | k in ForeignTerritories :: k !in {"CN", "FI", "FR", "NL", "NO", "US"}
  {
    OwnersNotForeignC();
    OwnersNotForeignN();
  }

  lemma OwnersNotForeignC()
    ensures forall k | k in ForeignTerritories :: k != "CN" && k != "FI" && k != "FR"
  {
  }

  lemma OwnersNotForeignN()
    ensures forall k | k in ForeignTerritories :: k != "NL" && k != "NO" && k != "US"
  {
  }

  lemma SubdivisionCountryPrefixesNotRenamed()
    ensures forall k | k in SubdivisionCountries ::
      k[..2] !in ReservedCountryCodes && k[..2] !in CountryAliasMap
  {
    SubdivisionCountryPrefixes();
  }

  // The tables one by one, then all together.

  lemma ForeignValid()
    ensures CountryKeyed(ForeignTerritories) && CountryValued(ForeignTerritories)
    ensures ValuesOutside(ForeignTerritories, ForeignTerritories)
    ensures ValuesOutside(ForeignTerritories, ReservedCountryCodes)
    ensures ValuesOutside(ForeignTerritories, CountryAliasMap)
  {
    ForeignKeysShort();
    ForeignTargetsShort();
    ForeignTargetsNotForeign();
    ForeignTargetsNotReserved();
    ForeignTargetsNotAliases();
  }

  lemma CountryAliasValid()
    ensures CountryKeyed(CountryAliasMap) && CodeKeyed(CountryAliasMap)
    ensures CountryValued(CountryAliasMap)
    ensures ValuesOutside(CountryAliasMap, ReservedCountryCodes)
    ensures ValuesOutside(CountryAliasMap, CountryAliasMap)
    ensures ValuesOutside(CountryAliasMap, ForeignTerritories)
  {
    CountryAliasKeys();
    CountryAliasTargetsShort();
    CountryAliasTargetsNotReserved();
    CountryAliasTargetsNotAliases();
    CountryAliasTargetsNotForeign();
  }

  lemma ReservedValid()
    ensures CountryKeyed(ReservedCountryCodes) && CodeKeyed(ReservedCountryCodes)
    ensures CountryValued(ReservedCountryCodes)
    ensures ValuesOutside(ReservedCountryCodes, ReservedCountryCodes)
    ensures ValuesOutside(ReservedCountryCodes, CountryAliasMap)
    ensures CountryKeyed(CountryAliasToSubdivision) && CodeKeyed(CountryAliasToSubdivision)
  {
    ReservedKeys();
    ReservedTargetsShort();
    ReservedTargetsFinal();
    AliasToSubdivisionKeys();
  }

  lemma SubdivisionTablesValid()
    ensures SubdivisionKeyed(SubdivisionCountries)
    ensures ValuesOutside(SubdivisionCountries, ReservedCountryCodes)
    ensures ValuesOutside(SubdivisionCountries, CountryAliasMap)
    ensures SubdivisionKeyed(SubdivisionAliases) && SubdivisionValued(SubdivisionAliases)
    ensures ValuesOutside(SubdivisionAliases, SubdivisionAliases)
    ensures ValuesOutside(SubdivisionAliases, SubdivisionCountries)
    ensures KeysOutside(SubdivisionCountries, SubdivisionAliases)
  {
    SubdivisionCountryKeysNotAliases();
    SubdivisionCountryKeysLong();
    SubdivisionCountryTargetsNotReserved();
    SubdivisionCountryTargetsNotAliases();
    SubdivisionAliasKeysLong();
    SubdivisionAliasTargetsFinal();
    SubdivisionAliasTargetsNotCountries();
  }

  lemma SubdivisionPrefixesValid()
    ensures PrefixesOutside(SubdivisionCountries, SubdivisionCountries.Values)
    ensures PrefixesOutside(SubdivisionCountries, ForeignTerritories.Keys)
    ensures PrefixesOutside(SubdivisionCountries, ReservedCountryCodes.Keys)
    ensures PrefixesOutside(SubdivisionCountries, CountryAliasMap.Keys)
  {
    SubdivisionCountryPrefixesNotTargets();
    SubdivisionCountryPrefixesNotForeign();
    SubdivisionCountryPrefixesNotRenamed();
  }

  /** The tables of territory.py have every property the operations rely on. */
  lemma SourceTablesValid()
    ensures Valid(SourceTables)
  {
    ForeignValid();
    CountryAliasValid();
    ReservedValid();
    SubdivisionTablesValid();
    SubdivisionPrefixesValid();
  }

  // ----------------------------------------------------------------------
  // Well-formed databases
  // ----------------------------------------------------------------------

  /** Every code of the tables that the code looks up in the database is
      there, and the subdivisions the tables rename are top-level ones. */
  predicate Known(t: Tables, db: Database)
  {
    && (forall k | k in t.reserved :: t.reserved[k] in db.countries)
    && (forall k | k in t.countryAliases :: t.countryAliases[k] in db.countries)
    && (forall k | k in t.foreign :: k in db.countries && t.foreign[k] in db.countries)
    && (forall k | k in t.subdivisionCountries ::
          && k in db.subdivisions && db.subdivisions[k].parentCode.None?
          && t.subdivisionCountries[k] in db.countries)
    && (forall k | k in t.subdivisionAliases ::
          && k in db.subdivisions && db.subdivisions[k].parentCode.None?
          && t.subdivisionAliases[k] in db.subdivisions
          && db.subdivisions[t.subdivisionAliases[k]].parentCode.None?)
  }

  /** What the operations rely on about the tables and the database
      together. */
  ghost predicate WellFormed(t: Tables, db: Database)
  {
    && Valid(t)
    && CountriesShaped(db)
    && SubdivisionsShaped(db)
    && (exists rank :: Ranked(db.subdivisions, rank))
    && Known(t, db)
  }

  /** A ranking of the subdivisions witnessing that parent chains are acyclic. */
  ghost function Rank(t: Tables, db: Database): (rank: map<string, nat>)
    requires WellFormed(t, db)
    ensures Ranked(db.subdivisions, rank)
  {
    var rank :| Ranked(db.subdivisions, rank); rank
  }

  lemma ParentBelow(t: Tables, db: Database, s: string)
    requires WellFormed(t, db) && s in db.subdivisions && db.subdivisions[s].parentCode.Some?
    ensures var p := db.subdivisions[s].parentCode.value;
      && p in db.subdivisions && p in Rank(t, db) && s in Rank(t, db)
      && Rank(t, db)[p] < Rank(t, db)[s]
      && db.subdivisions[p].countryCode == db.subdivisions[s].countryCode
  {
    assert ParentInCountry(db, s);
  }

  // ----------------------------------------------------------------------
  // Supported codes
  // ----------------------------------------------------------------------

  /** The database country codes and the European Commission, reserved and
      subdivision-denoting exceptions. */
  function SupportedCountryCodes(t: Tables, db: Database): set<string>
  {
    db.countries.Keys + t.countryAliases.Keys + t.reserved.Keys + t.aliasToSubdivision.Keys
  }

  function SupportedSubdivisionCodes(db: Database): set<string>
  {
    db.subdivisions.Keys
  }

  function SupportedTerritoryCodes(t: Tables, db: Database): set<string>
  {
    SupportedCountryCodes(t, db) + SupportedSubdivisionCodes(db)
  }

  /** Every supported code is a clean ISO code; it is a country code
      exactly when it has two characters, and a subdivision code exactly
      when it has more. */
  lemma SupportedCode(t: Tables, db: Database, c: string)
    requires WellFormed(t, db) && c in SupportedTerritoryCodes(t, db)
    ensures IsCode(c)
    ensures c in SupportedCountryCodes(t, db) <==> |c| == 2
    ensures c in SupportedSubdivisionCodes(db) <==> |c| > 2
  {
  }

  /** No code is both a supported country and a supported subdivision. */
  lemma SupportedCodesDisjoint(t: Tables, db: Database)
    requires WellFormed(t, db)
    ensures SupportedCountryCodes(t, db) !! SupportedSubdivisionCodes(db)
  {
    forall c | c in SupportedCountryCodes(t, db)
      ensures c !in SupportedSubdivisionCodes(db)
    {
      SupportedCode(t, db, c);
    }
  }

  /** With the tables of territory.py, reserved and European Commission codes are
      supported countries whatever the database holds, and a subdivision
      code never is. */
  lemma SupportedExceptions(db: Database)
    requires WellFormed(SourceTables, db)
    ensures "FX" in SupportedCountryCodes(SourceTables, db)
    ensures "UK" in SupportedCountryCodes(SourceTables, db)
    ensures "FR-59" !in SupportedCountryCodes(SourceTables, db)
  {
    if "FR-59" in SupportedCountryCodes(SourceTables, db) {
      SupportedCode(SourceTables, db, "FR-59");
    }
  }

  // ----------------------------------------------------------------------
  // Normalization
  // ----------------------------------------------------------------------

  /** `code.strip().upper()`. */
  function Clean(code: string): string
  {
    Upper(Strip(code))
  }

  lemma CleanOfCode(s: string)
    requires IsCode(s)
    ensures Clean(s) == s
  {
    StripWhereOfStripped(s, IsSpace);
    assert Upper(s) == s;
  }

  /** `territory_attachment`: the country a foreign territory belongs to. */
  function TerritoryAttachment(t: Tables, countryCode: string): string
  {
    Lookup(t.foreign, countryCode)
  }

  /** Attaching twice is attaching once, a database country stays one, and
      a code that is no foreign territory is kept. */
  lemma TerritoryAttachmentSpec(t: Tables, db: Database, c: string)
    requires WellFormed(t, db)
    ensures TerritoryAttachment(t, TerritoryAttachment(t, c)) == TerritoryAttachment(t, c)
    ensures c in db.countries ==> TerritoryAttachment(t, c) in db.countries
    ensures c !in t.foreign ==> TerritoryAttachment(t, c) == c
  {
  }

  /** Resolves a reserved code, then a European Commission code. */
  function ResolveCountryCode(t: Tables, code: string): string
  {
    Lookup(t.countryAliases, Lookup(t.reserved, code))
  }

  /** Resolves a subdivision alias, then a subdivision's own country code. */
  function ResolveSubdivisionAlias(t: Tables, code: string): string
  {
    Lookup(t.subdivisionCountries, Lookup(t.subdivisionAliases, code))
  }

  /** `normalize_territory_code`: cleans the code, rejects it when it is not
      supported, then resolves reserved and European Commission codes,
      optionally subdivision aliases and subdivision countries, and
      optionally the country a foreign territory belongs to. */
  function NormalizeTerritoryCode(
    t: Tables, db: Database, territoryCode: string,
    resolveAliases: bool, resolveTopCountry: bool): Result<string, Error>
  {
    var code := Clean(territoryCode);
    if code !in SupportedTerritoryCodes(t, db) then Err(ValueError(code))
    else
      var code := ResolveCountryCode(t, code);
      var code := if resolveAliases then ResolveSubdivisionAlias(t, code) else code;
      Ok(if resolveTopCountry then TerritoryAttachment(t, code) else code)
  }

  /** A supported code that the reserved and European Commission tables no
      longer rename. */
  ghost predicate CountryResolved(t: Tables, db: Database, code: string)
  {
    && code in SupportedTerritoryCodes(t, db)
    && code !in t.reserved && code !in t.countryAliases
  }

  lemma ResolveCountryCodeSpec(t: Tables, db: Database, code: string)
    requires WellFormed(t, db) && code in SupportedTerritoryCodes(t, db)
    ensures CountryResolved(t, db, ResolveCountryCode(t, code))
    ensures code !in t.reserved && code !in t.countryAliases ==>
      ResolveCountryCode(t, code) == code
    ensures code in t.subdivisionAliases || code in t.subdivisionCountries ==>
      ResolveCountryCode(t, code) == code
  {
  }

  lemma ResolveSubdivisionAliasSpec(t: Tables, db: Database, code: string)
    requires WellFormed(t, db) && CountryResolved(t, db, code)
    ensures CountryResolved(t, db, ResolveSubdivisionAlias(t, code))
    ensures ResolveSubdivisionAlias(t, code) !in t.subdivisionAliases
    ensures ResolveSubdivisionAlias(t, code) !in t.subdivisionCountries
    ensures code !in t.subdivisionAliases && code !in t.subdivisionCountries ==>
      ResolveSubdivisionAlias(t, code) == code
  {
  }

  lemma TerritoryAttachmentResolved(t: Tables, db: Database, code: string)
    requires WellFormed(t, db) && CountryResolved(t, db, code)
    ensures CountryResolved(t, db, TerritoryAttachment(t, code))
    ensures TerritoryAttachment(t, code) !in t.foreign
    ensures code !in t.subdivisionAliases && code !in t.subdivisionCountries ==>
      TerritoryAttachment(t, code) !in t.subdivisionAliases
      && TerritoryAttachment(t, code) !in t.subdivisionCountries
  {
  }

  /** Normalizing fails exactly on unsupported codes, with an error naming
      the cleaned code. */
  lemma NormalizeFails(t: Tables, db: Database, code: string, resolveAliases: bool, resolveTopCountry: bool)
    ensures var r := NormalizeTerritoryCode(t, db, code, resolveAliases, resolveTopCountry);
      && (r.Err? <==> Clean(code) !in SupportedTerritoryCodes(t, db))
      && (r.Err? ==> r.error == ValueError(Clean(code)))
  {
  }

  /** A success is a supported code that no table applied renames any
      more. */
  lemma NormalizeResolves(t: Tables, db: Database, code: string, resolveAliases: bool, resolveTopCountry: bool)
    requires WellFormed(t, db)
    ensures var r := NormalizeTerritoryCode(t, db, code, resolveAliases, resolveTopCountry);
      && (r.Ok? ==> CountryResolved(t, db, r.value))
      && (r.Ok? && resolveAliases ==>
            r.value !in t.subdivisionAliases && r.value !in t.subdivisionCountries)
      && (r.Ok? && resolveTopCountry ==> r.value !in t.foreign)
  {
    var c0 := Clean(code);
    if c0 in SupportedTerritoryCodes(t, db) {
      ResolveCountryCodeSpec(t, db, c0);
      var c1 := ResolveCountryCode(t, c0);
      var c2 := if resolveAliases then ResolveSubdivisionAlias(t, c1) else c1;
      if resolveAliases {
        ResolveSubdivisionAliasSpec(t, db, c1);
      }
      if resolveTopCountry {
        TerritoryAttachmentResolved(t, db, c2);
      }
    }
  }

  /** A code no applied table renames normalizes to itself. */
  lemma RenormalizeResolved(t: Tables, db: Database, c: string, resolveAliases: bool, resolveTopCountry: bool)
    requires WellFormed(t, db) && CountryResolved(t, db, c)
    requires resolveAliases ==> c !in t.subdivisionAliases && c !in t.subdivisionCountries
    requires resolveTopCountry ==> c !in t.foreign
    ensures NormalizeTerritoryCode(t, db, c, resolveAliases, resolveTopCountry) == Ok(c)
  {
    SupportedCode(t, db, c);
    CleanOfCode(c);
  }

  /** Normalizing a normalized code gives it back. */
  lemma NormalizeIdempotent(t: Tables, db: Database, code: string, resolveAliases: bool, resolveTopCountry: bool)
    requires WellFormed(t, db)
    ensures var r := NormalizeTerritoryCode(t, db, code, resolveAliases, resolveTopCountry);
      r.Ok? ==> NormalizeTerritoryCode(t, db, r.value, resolveAliases, resolveTopCountry) == r
  {
    var r := NormalizeTerritoryCode(t, db, code, resolveAliases, resolveTopCountry);
    if r.Ok? {
      NormalizeResolves(t, db, code, resolveAliases, resolveTopCountry);
      RenormalizeResolved(t, db, r.value, resolveAliases, resolveTopCountry);
    }
  }

  // ----------------------------------------------------------------------
  // Country of a subdivision
  // ----------------------------------------------------------------------

  /** `country_from_subdivision`: the own country code of a subdivision that
      has one, else the country of the database subdivision, else `None`. */
  function CountryFromSubdivision(t: Tables, db: Database, subdivisionCode: string): Option<string>
  {
    var code := Lookup(t.subdivisionCountries, subdivisionCode);
    if code in SupportedCountryCodes(t, db) then Some(code)
    else if subdivisionCode in db.subdivisions
    then Some(db.subdivisions[subdivisionCode].countryCode)
    else None
  }

  /** The country is found exactly for supported codes, and it is a
      supported country. */
  lemma CountryFromSubdivisionDefined(t: Tables, db: Database, s: string)
    requires WellFormed(t, db)
    ensures CountryFromSubdivision(t, db, s).None? <==> s !in SupportedTerritoryCodes(t, db)
    ensures CountryFromSubdivision(t, db, s).Some? ==>
      CountryFromSubdivision(t, db, s).value in SupportedCountryCodes(t, db)
  {
  }

  /** A country code is its own country, a subdivision with its own country
      code gets that code, and any other subdivision the country of its
      database entry. */
  lemma CountryFromSubdivisionCases(t: Tables, db: Database, s: string)
    requires WellFormed(t, db)
    ensures s in SupportedCountryCodes(t, db) ==> CountryFromSubdivision(t, db, s) == Some(s)
    ensures s in t.subdivisionCountries ==>
      CountryFromSubdivision(t, db, s) == Some(t.subdivisionCountries[s])
    ensures s in db.subdivisions && s !in t.subdivisionCountries ==>
      CountryFromSubdivision(t, db, s) == Some(db.subdivisions[s].countryCode)
  {
  }

  // ----------------------------------------------------------------------
  // Multi-valued indexes
  // ----------------------------------------------------------------------

  /** The entry of a multi-valued index; an absent key has no values. */
  function Entry(index: map<string, set<string>>, key: string): set<string>
  {
    if key in index then index[key] else {}
  }

  /** `{table[code]}` when the table renames `code`, else nothing. */
  function Renamed(table: map<string, string>, code: string): set<string>
  {
    if code in table then {table[code]} else {}
  }

  /** The keys of `table` that it maps to `code`. */
  function Preimage(table: map<string, string>, code: string): set<string>
  {
    set k | k in table && table[k] == code
  }

  /** `index` after `index.setdefault(k, set()).add(table[k])` for every key
      `k` of `table`. */
  function WithStraight(index: map<string, set<string>>, table: map<string, string>)
    : map<string, set<string>>
  {
    map c | c in index.Keys + table.Keys :: Entry(index, c) + Renamed(table, c)
  }

  /** `index` after `index.setdefault(table[k], set()).add(k)` for every key
      `k` of `table`. */
  function WithReversed(index: map<string, set<string>>, table: map<string, string>)
    : map<string, set<string>>
  {
    map c | c in index.Keys + table.Values :: Entry(index, c) + Preimage(table, c)
  }

  /** The entries of `table` whose target is a two-letter country code. */
  function CountryTargets(table: map<string, string>): map<string, string>
  {
    map k | k in table && |table[k]| == 2 :: table[k]
  }

  lemma EntryWithStraight(index: map<string, set<string>>, table: map<string, string>, c: string)
    ensures c in WithStraight(index, table) <==> c in index || c in table
    ensures Entry(WithStraight(index, table), c) == Entry(index, c) + Renamed(table, c)
  {
  }

  lemma EntryWithReversed(index: map<string, set<string>>, table: map<string, string>, c: string)
    ensures c in WithReversed(index, table) <==> c in index || c in table.Values
    ensures Entry(WithReversed(index, table), c) == Entry(index, c) + Preimage(table, c)
  {
  }

  /** Two indexes with the same keys and the same entries are equal. */
  lemma IndexesEqual(a: map<string, set<string>>, b: map<string, set<string>>)
    requires forall c :: c in a <==> c in b
    requires forall c :: Entry(a, c) == Entry(b, c)
    ensures a == b
  {
    forall c | c in a
      ensures a[c] == b[c]
    {
      assert Entry(a, c) == Entry(b, c);
    }
  }

  /** An index holding the keys of `mapping` and exactly the members of
      `mapping` and the reversed entries of `table` is `WithReversed`. */
  lemma ReversedIndex(mapping: map<string, set<string>>, table: map<string, string>,
                      r: map<string, set<string>>)
    requires mapping.Keys <= r.Keys
    requires forall c | c in r :: c in mapping || Entry(r, c) != {}
    requires forall c, x :: x in Entry(r, c) <==>
      x in Entry(mapping, c) || (x in table && table[x] == c)
    ensures r == WithReversed(mapping, table)
  {
    forall c
      ensures c in r <==> c in WithReversed(mapping, table)
      ensures Entry(r, c) == Entry(WithReversed(mapping, table), c)
    {
      EntryWithReversed(mapping, table, c);
      if c in r && c !in mapping {
        var x :| x in Entry(r, c);
      }
      if c in table.Values {
        var k :| k in table && table[k] == c;
        assert k in Entry(r, c);
      }
    }
    IndexesEqual(r, WithReversed(mapping, table));
  }

  /** An index holding exactly the keys and members of `mapping` and the
      entries of `table` is `WithStraight`. */
  lemma StraightIndex(mapping: map<string, set<string>>, table: map<string, string>,
                      r: map<string, set<string>>)
    requires forall c :: c in r <==> c in mapping || c in table
    requires forall c, x :: x in Entry(r, c) <==>
      x in Entry(mapping, c) || (c in table && x == table[c])
    ensures r == WithStraight(mapping, table)
  {
    forall c
      ensures c in r <==> c in WithStraight(mapping, table)
      ensures Entry(r, c) == Entry(WithStraight(mapping, table), c)
    {
      EntryWithStraight(mapping, table, c);
    }
    IndexesEqual(r, WithStraight(mapping, table));
  }

  /** The loop adding every entry of `table` from key to target. */
  method AddStraight(mapping: map<string, set<string>>, table: map<string, string>)
    returns (r: map<string, set<string>>)
    ensures r == WithStraight(mapping, table)
  {
    r := mapping;
    var todo := table.Keys;
    while todo != {}
      invariant todo <= table.Keys
      invariant forall c :: c in r <==> c in mapping || (c in table && c !in todo)
      invariant forall c, x :: x in Entry(r, c) <==>
        x in Entry(mapping, c) || (c in table && c !in todo && x == table[c])
      decreases |todo|
    {
      var aliasCode :| aliasCode in todo;
      ghost var before := r;
      r := r[aliasCode := Entry(r, aliasCode) + {table[aliasCode]}];
      todo := todo - {aliasCode};
      forall c, x
        ensures x in Entry(r, c) <==>
          x in Entry(mapping, c) || (c in table && c !in todo && x == table[c])
      {
        if c != aliasCode {
          assert Entry(r, c) == Entry(before, c);
        }
      }
    }
    StraightIndex(mapping, table, r);
  }

  /** The loop adding every entry of `table` from target to key. */
  method AddReversed(mapping: map<string, set<string>>, table: map<string, string>)
    returns (r: map<string, set<string>>)
    ensures r == WithReversed(mapping, table)
  {
    r := mapping;
    var todo := table.Keys;
    while todo != {}
      invariant todo <= table.Keys
      invariant mapping.Keys <= r.Keys
      invariant forall c | c in r :: c in mapping || Entry(r, c) != {}
      invariant forall c, x :: x in Entry(r, c) <==>
        x in Entry(mapping, c) || (x in table && x !in todo && table[x] == c)
      decreases |todo|
    {
      var aliasCode :| aliasCode in todo;
      var targetCode := table[aliasCode];
      ghost var before, pending := r, todo;
      r := r[targetCode := Entry(r, targetCode) + {aliasCode}];
      todo := todo - {aliasCode};
      forall c, x
        ensures x in Entry(r, c) <==>
          x in Entry(mapping, c) || (x in table && x !in todo && table[x] == c)
      {
        assert x in Entry(before, c) <==>
          x in Entry(mapping, c) || (x in table && x !in pending && table[x] == c);
        assert x !in todo <==> x !in pending || x == aliasCode;
        if c == targetCode {
          assert Entry(r, c) == Entry(before, c) + {aliasCode};
        } else {
          assert Entry(r, c) == Entry(before, c);
        }
      }
    }
    ReversedIndex(mapping, table, r);
  }

  /** The loop adding, from target to key, the entries of `table` whose
      target is a country code, skipping the others. */
  method AddReversedCountries(mapping: map<string, set<string>>, table: map<string, string>)
    returns (r: map<string, set<string>>)
    ensures r == WithReversed(mapping, CountryTargets(table))
  {
    r := mapping;
    var todo := table.Keys;
    while todo != {}
      invariant todo <= table.Keys
      invariant mapping.Keys <= r.Keys
      invariant forall c | c in r :: c in mapping || Entry(r, c) != {}
      invariant forall c, x :: x in Entry(r, c) <==>
        x in Entry(mapping, c) || (x in table && x !in todo && |table[x]| == 2 && table[x] == c)
      decreases |todo|
    {
      var subdivisionCode :| subdivisionCode in todo;
      var aliasCode := table[subdivisionCode];
      ghost var before, pending := r, todo;
      if |aliasCode| == 2 {
        r := r[aliasCode := Entry(r, aliasCode) + {subdivisionCode}];
      }
      todo := todo - {subdivisionCode};
      forall c, x
        ensures x in Entry(r, c) <==>
          x in Entry(mapping, c) || (x in table && x !in todo && |table[x]| == 2 && table[x] == c)
      {
        assert x in Entry(before, c) <==>
          x in Entry(mapping, c) || (x in table && x !in pending && |table[x]| == 2 && table[x] == c);
        assert x !in todo <==> x !in pending || x == subdivisionCode;
        if c == aliasCode && |aliasCode| == 2 {
          assert Entry(r, c) == Entry(before, c) + {subdivisionCode};
        } else {
          assert Entry(r, c) == Entry(before, c);
        }
      }
    }
    ReversedIndex(mapping, CountryTargets(table), r);
  }

  // ----------------------------------------------------------------------
  // Default subdivision
  // ----------------------------------------------------------------------

  /** The subdivisions a country code may stand for: those whose own
      two-character country code it is, and the one it denotes when it is a
      reserved code denoting a subdivision. */
  function DefaultCandidates(t: Tables, countryCode: string): set<string>
  {
    (set k | k in t.subdivisionCountries && |t.subdivisionCountries[k]| == 2
               && t.subdivisionCountries[k] == countryCode)
    + Renamed(t.aliasToSubdivision, countryCode)
  }

  /** The index `default_subdivision_code` builds holds the candidates of
      every country code. */
  lemma CandidatesIndexEntry(t: Tables, countryCode: string)
    ensures Entry(WithStraight(WithReversed(map[], CountryTargets(t.subdivisionCountries)),
                               t.aliasToSubdivision), countryCode)
      == DefaultCandidates(t, countryCode)
  {
    var targets := CountryTargets(t.subdivisionCountries);
    EntryWithStraight(WithReversed(map[], targets), t.aliasToSubdivision, countryCode);
    EntryWithReversed(map[], targets, countryCode);
    PreimageOfCountryTargets(t.subdivisionCountries, countryCode);
  }

  lemma PreimageOfCountryTargets(table: map<string, string>, countryCode: string)
    ensures Preimage(CountryTargets(table), countryCode)
      == set k | k in table && |table[k]| == 2 && table[k] == countryCode
  {
  }

  lemma SingletonIs(s: set<string>, x: string)
    requires |s| == 1 && x in s
    ensures s == {x}
  {
    assert |s - {x}| == 0;
  }

  /** `default_subdivision_code`: builds the index of candidates by country
      code and answers only when the country has exactly one candidate. */
  method DefaultSubdivisionCode(t: Tables, countryCode: string) returns (r: Option<string>)
    ensures r.Some? <==> |DefaultCandidates(t, countryCode)| == 1
    ensures r.Some? ==> DefaultCandidates(t, countryCode) == {r.value}
  {
    var index := AddReversedCountries(map[], t.subdivisionCountries);
    index := AddStraight(index, t.aliasToSubdivision);
    var defaults := Entry(index, countryCode);
    CandidatesIndexEntry(t, countryCode);
    if |defaults| == 1 {
      var code :| code in defaults;
      SingletonIs(defaults, code);
      r := Some(code);
    } else {
      r := None;
    }
  }

  // ----------------------------------------------------------------------
  // Reverse mapping
  // ----------------------------------------------------------------------

  /** The codes an alias lookup of `code` moves to: the subdivisions whose
      own country code it is, and what the other tables rename it to. */
  function HitsIn(t: Tables, code: string): set<string>
  {
    Preimage(t.subdivisionCountries, code)
    + Renamed(t.reserved, code) + Renamed(t.countryAliases, code)
    + Renamed(t.subdivisionAliases, code) + Renamed(t.foreign, code)
  }

  /** Every code with a hit, mapped to its hits. */
  function ReverseIndex(t: Tables): map<string, set<string>>
  {
    map code | code in t.subdivisionCountries.Values + t.reserved.Keys
      + t.countryAliases.Keys + t.subdivisionAliases.Keys + t.foreign.Keys
      :: HitsIn(t, code)
  }

  /** Membership in the hits, one table at a time. */
  lemma HitIn(t: Tables, code: string, x: string)
    ensures x in HitsIn(t, code) <==>
      || (x in t.subdivisionCountries && t.subdivisionCountries[x] == code)
      || (code in t.reserved && x == t.reserved[code])
      || (code in t.countryAliases && x == t.countryAliases[code])
      || (code in t.subdivisionAliases && x == t.subdivisionAliases[code])
      || (code in t.foreign && x == t.foreign[code])
  {
  }

  /** The keys of the reverse index are the targets of the subdivision
      table and the keys of the other tables, and each maps to its hits. */
  lemma ReverseIndexAt(t: Tables, code: string)
    ensures code in ReverseIndex(t) <==>
      || code in t.subdivisionCountries.Values || code in t.reserved
      || code in t.countryAliases || code in t.subdivisionAliases || code in t.foreign
    ensures Entry(ReverseIndex(t), code) == HitsIn(t, code)
  {
  }

  /** A code is a key of the reverse index exactly when it has a hit. */
  lemma ReverseIndexKeys(t: Tables, code: string)
    ensures code in ReverseIndex(t) <==> HitsIn(t, code) != {}
    ensures Entry(ReverseIndex(t), code) == HitsIn(t, code)
  {
    ReverseIndexAt(t, code);
    if code in t.subdivisionCountries.Values {
      var k :| k in t.subdivisionCountries && t.subdivisionCountries[k] == code;
      HitIn(t, code, k);
    } else if code in t.reserved {
      HitIn(t, code, t.reserved[code]);
    } else if code in t.countryAliases {
      HitIn(t, code, t.countryAliases[code]);
    } else if code in t.subdivisionAliases {
      HitIn(t, code, t.subdivisionAliases[code]);
    } else if code in t.foreign {
      HitIn(t, code, t.foreign[code]);
    }
    if HitsIn(t, code) != {} {
      var x :| x in HitsIn(t, code);
      HitIn(t, code, x);
      if x in t.subdivisionCountries && t.subdivisionCountries[x] == code {
        assert t.subdivisionCountries[x] in t.subdivisionCountries.Values;
      }
    }
  }

  /** The passes of `generate_mapping` over any tables. */
  function StagedIndex(t: Tables): map<string, set<string>>
  {
    WithStraight(WithStraight(WithStraight(WithStraight(
      WithReversed(map[], t.subdivisionCountries),
      t.reserved), t.countryAliases), t.subdivisionAliases), t.foreign)
  }

  /** The keys of the index built pass by pass. */
  lemma StagedKey(t: Tables, c: string)
    ensures c in StagedIndex(t) <==> c in ReverseIndex(t)
  {
    var m0 := WithReversed(map[], t.subdivisionCountries);
    var m1 := WithStraight(m0, t.reserved);
    var m2 := WithStraight(m1, t.countryAliases);
    var m3 := WithStraight(m2, t.subdivisionAliases);
    ReverseIndexAt(t, c);
  }

  /** The members of one code in the index built pass by pass. */
  lemma StagedEntry(t: Tables, c: string)
    ensures Entry(StagedIndex(t), c) == HitsIn(t, c)
  {
    var m0 := WithReversed(map[], t.subdivisionCountries);
    var m1 := WithStraight(m0, t.reserved);
    var m2 := WithStraight(m1, t.countryAliases);
    var m3 := WithStraight(m2, t.subdivisionAliases);
    EntryWithReversed(map[], t.subdivisionCountries, c);
    EntryWithStraight(m0, t.reserved, c);
    EntryWithStraight(m1, t.countryAliases, c);
    EntryWithStraight(m2, t.subdivisionAliases, c);
    EntryWithStraight(m3, t.foreign, c);
    assert Entry(m0, c) == Preimage(t.subdivisionCountries, c);
  }

  /** The index `generate_mapping` builds pass by pass is the reverse
      index. */
  lemma StagedReverseIndex(t: Tables)
    ensures StagedIndex(t) == ReverseIndex(t)
  {
    forall c
      ensures c in StagedIndex(t) <==> c in ReverseIndex(t)
      ensures Entry(StagedIndex(t), c) == Entry(ReverseIndex(t), c)
    {
      StagedKey(t, c);
      StagedEntry(t, c);
      ReverseIndexAt(t, c);
    }
    IndexesEqual(StagedIndex(t), ReverseIndex(t));
  }

  /** `generate_mapping`: the targets of the subdivision country table
      point back to their keys, and the keys of the reserved, European
      Commission, subdivision alias and foreign territory tables to their
      targets. `REVERSE_MAPPING` is its result on the tables of territory.py. */
  method GenerateMapping(t: Tables) returns (mapping: map<string, set<string>>)
    ensures mapping == ReverseIndex(t)
  {
    mapping := AddReversed(map[], t.subdivisionCountries);
    mapping := AddStraight(mapping, t.reserved);
    mapping := AddStraight(mapping, t.countryAliases);
    mapping := AddStraight(mapping, t.subdivisionAliases);
    mapping := AddStraight(mapping, t.foreign);
    StagedReverseIndex(t);
  }

  // ----------------------------------------------------------------------
  // Children
  // ----------------------------------------------------------------------

  /** The proper ancestors of a subdivision: its parent, its parent's
      parent, and so on. */
  ghost function Ancestors(t: Tables, db: Database, s: string): set<string>
    requires WellFormed(t, db) && s in db.subdivisions
    decreases Rank(t, db)[s]
  {
    match db.subdivisions[s].parentCode
    case None => {}
    case Some(p) => ParentBelow(t, db, s); {p} + Ancestors(t, db, p)
  }

  /** Every subdivision below `code`, at any depth. */
  ghost function Descendants(t: Tables, db: Database, code: string): set<string>
    requires WellFormed(t, db)
  {
    set s | s in db.subdivisions && code in Ancestors(t, db, s)
  }

  /** The subdivisions whose parent is `code`. */
  function DirectChildren(db: Database, code: string): set<string>
  {
    set s | s in db.subdivisions && db.subdivisions[s].parentCode == Some(code)
  }

  /** The subdivisions of a country. */
  function CountrySubdivisions(db: Database, countryCode: string): set<string>
  {
    set s | s in db.subdivisions && db.subdivisions[s].countryCode == countryCode
  }

  /** The members of `codes` and everything below them. */
  ghost function Below(t: Tables, db: Database, codes: set<string>): set<string>
    requires WellFormed(t, db)
  {
    set s | s in db.subdivisions && (s in codes || Ancestors(t, db, s) * codes != {})
  }

  /** The ancestors of an ancestor are ancestors. */
  lemma {:induction false} AncestorsTransitive(t: Tables, db: Database, s: string, a: string)
    requires WellFormed(t, db) && s in db.subdivisions && a in Ancestors(t, db, s)
    ensures a in db.subdivisions && Ancestors(t, db, a) <= Ancestors(t, db, s)
    decreases Rank(t, db)[s]
  {
    var p := db.subdivisions[s].parentCode.value;
    ParentBelow(t, db, s);
    if a != p {
      AncestorsTransitive(t, db, p, a);
    }
  }

  /** A subdivision is below the children of `code` exactly when `code`
      is one of its ancestors. */
  lemma {:induction false} BelowChildren(t: Tables, db: Database, code: string, s: string)
    requires WellFormed(t, db) && s in db.subdivisions
    ensures s in Below(t, db, DirectChildren(db, code)) <==> code in Ancestors(t, db, s)
    decreases Rank(t, db)[s]
  {
    var children := DirectChildren(db, code);
    if code in Ancestors(t, db, s) {
      var p := db.subdivisions[s].parentCode.value;
      ParentBelow(t, db, s);
      if p != code {
        BelowChildren(t, db, code, p);
        if p in children {
          assert p in Ancestors(t, db, s) * children;
        } else {
          var c :| c in Ancestors(t, db, p) * children;
          assert c in Ancestors(t, db, s) * children;
        }
      }
    }
    if s in Below(t, db, children) && s !in children {
      var c :| c in Ancestors(t, db, s) * children;
      AncestorsTransitive(t, db, s, c);
      assert code in Ancestors(t, db, c);
    }
  }

  lemma DescendantsBelowChildren(t: Tables, db: Database, code: string)
    requires WellFormed(t, db)
    ensures Descendants(t, db, code) == Below(t, db, DirectChildren(db, code))
  {
    forall s | s in db.subdivisions
      ensures s in Below(t, db, DirectChildren(db, code)) <==> s in Descendants(t, db, code)
    {
      BelowChildren(t, db, code, s);
    }
  }

  /** Adding a code to the searched ones adds it and what is below it. */
  lemma BelowAdd(t: Tables, db: Database, done: set<string>, c: string)
    requires WellFormed(t, db) && c in db.subdivisions
    ensures Below(t, db, done + {c}) == Below(t, db, done) + ({c} + Descendants(t, db, c))
  {
  }

  /** A subdivision with a parent is its own normalized code. */
  lemma ChildNormalized(t: Tables, db: Database, s: string)
    requires WellFormed(t, db) && s in db.subdivisions && db.subdivisions[s].parentCode.Some?
    ensures NormalizeTerritoryCode(t, db, s, true, false) == Ok(s)
    ensures s !in SupportedCountryCodes(t, db)
  {
    SupportedCode(t, db, s);
    RenormalizeResolved(t, db, s, true, false);
  }

  /** What `territory_children_codes` returns: the normalized code's
      subdivisions when it is a country, its descendants otherwise, and the
      code itself when asked for. */
  ghost function ChildrenSpec(t: Tables, db: Database, territoryCode: string, includeSelf: bool)
    : Result<set<string>, Error>
    requires WellFormed(t, db)
  {
    match NormalizeTerritoryCode(t, db, territoryCode, true, false)
    case Err(e) => Err(e)
    case Ok(code) =>
      var below := if code in SupportedCountryCodes(t, db) then CountrySubdivisions(db, code)
                   else Descendants(t, db, code);
      Ok(if includeSelf then below + {code} else below)
  }

  /** Bounds the depth of the search: a subdivision with a parent is its
      own normalized code and measures its distance from the bottom of the
      tree; any other code measures more than every subdivision. */
  ghost function Height(t: Tables, db: Database, territoryCode: string): nat
    requires WellFormed(t, db)
  {
    if territoryCode in db.subdivisions && db.subdivisions[territoryCode].parentCode.Some?
    then |db.subdivisions| - Rank(t, db)[territoryCode]
    else |db.subdivisions| + 1
  }

  /** The result for a code that normalizes to `code`. */
  lemma ChildrenSpecOf(t: Tables, db: Database, territoryCode: string, includeSelf: bool, code: string)
    requires WellFormed(t, db)
    requires NormalizeTerritoryCode(t, db, territoryCode, true, false) == Ok(code)
    ensures var below := if code in SupportedCountryCodes(t, db) then CountrySubdivisions(db, code)
                         else Descendants(t, db, code);
      ChildrenSpec(t, db, territoryCode, includeSelf)
        == Ok(if includeSelf then below + {code} else below)
  {
  }

  /** A normalized code that is not a supported country is a subdivision,
      no higher in the tree than the code's own measure. */
  lemma NormalizedSubdivision(t: Tables, db: Database, territoryCode: string, code: string)
    requires WellFormed(t, db)
    requires NormalizeTerritoryCode(t, db, territoryCode, true, false) == Ok(code)
    requires code !in SupportedCountryCodes(t, db)
    ensures code in db.subdivisions
    ensures |db.subdivisions| - Rank(t, db)[code] <= Height(t, db, territoryCode)
  {
    NormalizeResolves(t, db, territoryCode, true, false);
    SupportedCode(t, db, code);
    if territoryCode in db.subdivisions && db.subdivisions[territoryCode].parentCode.Some? {
      ChildNormalized(t, db, territoryCode);
    }
  }

  /** Once every child has been searched, the search has found exactly the
      descendants. */
  lemma ChildrenFound(t: Tables, db: Database, code: string, codes: set<string>)
    requires WellFormed(t, db)
    requires codes == Below(t, db, DirectChildren(db, code) - {})
    ensures codes == Descendants(t, db, code)
  {
    assert DirectChildren(db, code) - {} == DirectChildren(db, code);
    DescendantsBelowChildren(t, db, code);
  }

  /** One turn of the search: a child and its descendants extend what was
      found below the children searched so far. */
  lemma ChildrenStep(t: Tables, db: Database, children: set<string>, todo: set<string>,
                     c: string, codes: set<string>)
    requires WellFormed(t, db) && todo <= children && c in todo && c in db.subdivisions
    requires codes == Below(t, db, children - todo)
    ensures codes + (Descendants(t, db, c) + {c}) == Below(t, db, children - (todo - {c}))
  {
    BelowAdd(t, db, children - todo, c);
    assert children - (todo - {c}) == (children - todo) + {c};
  }

  /** A child's own search finds it and its descendants, and starts lower
      in the tree than its parent's. */
  lemma ChildSearch(t: Tables, db: Database, code: string, c: string)
    requires WellFormed(t, db) && code in db.subdivisions
    requires c in db.subdivisions && db.subdivisions[c].parentCode == Some(code)
    ensures ChildrenSpec(t, db, c, true) == Ok(Descendants(t, db, c) + {c})
    ensures Height(t, db, c) < |db.subdivisions| - Rank(t, db)[code]
  {
    ChildNormalized(t, db, c);
    ParentBelow(t, db, c);
  }

  /** `territory_children_codes`: normalizes the code, then collects the
      subdivisions of a country in one pass, or searches below a subdivision
      level by level, adding the code itself on demand. */
  method TerritoryChildrenCodes(t: Tables, db: Database, territoryCode: string, includeSelf: bool)
    returns (r: Result<set<string>, Error>)
    requires WellFormed(t, db)
    ensures r == ChildrenSpec(t, db, territoryCode, includeSelf)
    decreases Height(t, db, territoryCode), 2
  {
    var normalized := NormalizeTerritoryCode(t, db, territoryCode, true, false);
    if normalized.Err? {
      assert ChildrenSpec(t, db, territoryCode, includeSelf) == Err(normalized.error);
      return Err(normalized.error);
    }
    var code := normalized.value;
    ChildrenSpecOf(t, db, territoryCode, includeSelf, code);
    var codes: set<string>;
    if code in SupportedCountryCodes(t, db) {
      codes := CountrySubdivisions(db, code);
    } else {
      NormalizedSubdivision(t, db, territoryCode, code);
      codes := SearchChildren(t, db, code);
    }
    if includeSelf {
      codes := codes + {code};
    }
    r := Ok(codes);
  }

  /** The per-level search of `territory_children_codes`: each direct child
      of the subdivision `code` contributes its own search, itself included. */
  method SearchChildren(t: Tables, db: Database, code: string) returns (codes: set<string>)
    requires WellFormed(t, db) && code in db.subdivisions
    ensures codes == Descendants(t, db, code)
    decreases |db.subdivisions| - Rank(t, db)[code], 1
  {
    var directChildren := DirectChildren(db, code);
    var todo := directChildren;
    codes := {};
    while todo != {}
      invariant todo <= directChildren
      invariant codes == Below(t, db, directChildren - todo)
      decreases |todo|
    {
      var childCode :| childCode in todo;
      var childCodes := SearchChild(t, db, code, childCode);
      ChildrenStep(t, db, directChildren, todo, childCode, codes);
      codes := codes + childCodes;
      todo := todo - {childCode};
    }
    ChildrenFound(t, db, code, codes);
  }

  /** One recursive call of the search, on a direct child of `code`. */
  method SearchChild(t: Tables, db: Database, code: string, childCode: string)
    returns (childCodes: set<string>)
    requires WellFormed(t, db) && code in db.subdivisions
    requires childCode in db.subdivisions && db.subdivisions[childCode].parentCode == Some(code)
    ensures childCodes == Descendants(t, db, childCode) + {childCode}
    decreases |db.subdivisions| - Rank(t, db)[code], 0
  {
    ChildSearch(t, db, code, childCode);
    var r := TerritoryChildrenCodes(t, db, childCode, true);
    childCodes := r.value;
  }

  /** Every ancestor ranks below the subdivision, so none is the
      subdivision itself, and every ancestor is in the same country. */
  lemma {:induction false} AncestorsBelow(t: Tables, db: Database, s: string, a: string)
    requires WellFormed(t, db) && s in db.subdivisions && a in Ancestors(t, db, s)
    ensures a in db.subdivisions && Rank(t, db)[a] < Rank(t, db)[s]
    ensures db.subdivisions[a].countryCode == db.subdivisions[s].countryCode
    decreases Rank(t, db)[s]
  {
    var p := db.subdivisions[s].parentCode.value;
    ParentBelow(t, db, s);
    if a != p {
      AncestorsBelow(t, db, p, a);
    }
  }

  /** The searched code is in the result exactly when it is asked for:
      subdivisions are never countries, and no subdivision is its own
      descendant. */
  lemma ChildrenSelf(t: Tables, db: Database, territoryCode: string, includeSelf: bool)
    requires WellFormed(t, db)
    ensures var r := ChildrenSpec(t, db, territoryCode, includeSelf);
      r.Ok? ==>
        (NormalizeTerritoryCode(t, db, territoryCode, true, false).value in r.value <==> includeSelf)
  {
    var n := NormalizeTerritoryCode(t, db, territoryCode, true, false);
    if n.Ok? {
      var code := n.value;
      NormalizeResolves(t, db, territoryCode, true, false);
      SupportedCode(t, db, code);
      ChildrenSpecOf(t, db, territoryCode, includeSelf, code);
      if code in db.subdivisions && code in Ancestors(t, db, code) {
        AncestorsBelow(t, db, code, code);
      }
    }
  }

  /** Every subdivision found below a subdivision is in its country. */
  lemma DescendantsInCountry(t: Tables, db: Database, code: string)
    requires WellFormed(t, db) && code in db.subdivisions
    ensures Descendants(t, db, code) <= CountrySubdivisions(db, db.subdivisions[code].countryCode)
  {
    forall d | d in Descendants(t, db, code)
      ensures d in CountrySubdivisions(db, db.subdivisions[code].countryCode)
    {
      AncestorsBelow(t, db, d, code);
    }
  }

  /** A subdivision without children has no descendants. */
  lemma LeafDescendants(t: Tables, db: Database, code: string)
    requires WellFormed(t, db) && DirectChildren(db, code) == {}
    ensures Descendants(t, db, code) == {}
  {
    DescendantsBelowChildren(t, db, code);
  }

  // ----------------------------------------------------------------------
  // Parents (`territory_parents`, `territory_parents_codes`).

  /** `countries.get(alpha_2=code)`: the country, or nothing. */
  function CountryLookup(db: Database, code: string): Territory
  {
    if code in db.countries then CountryEntity(db.countries[code]) else Missing
  }

  /** A subdivision followed by each of its ancestors, nearest first. */
  ghost function Chain(t: Tables, db: Database, s: string): seq<Territory>
    requires WellFormed(t, db) && s in db.subdivisions
    decreases Rank(t, db)[s]
  {
    [SubdivisionEntity(db.subdivisions[s])] +
    match db.subdivisions[s].parentCode
    case None => []
    case Some(p) => ParentBelow(t, db, s); Chain(t, db, p)
  }

  /** The top of a subdivision's parent chain. */
  ghost function Root(t: Tables, db: Database, s: string): (r: string)
    requires WellFormed(t, db) && s in db.subdivisions
    ensures r in db.subdivisions && db.subdivisions[r].parentCode.None?
    decreases Rank(t, db)[s]
  {
    match db.subdivisions[s].parentCode
    case None => s
    case Some(p) => ParentBelow(t, db, s); Root(t, db, p)
  }

  /** What `territory_parents` returns: the table of country aliases to
      subdivisions is applied to the raw code, which is then normalized; a
      country gives itself, a subdivision its chain, and the country of the
      chain's top closes the list on demand. */
  ghost function ParentsSpec(t: Tables, db: Database, territoryCode: string, includeCountry: bool)
    : Result<seq<Territory>, Error>
    requires WellFormed(t, db)
  {
    var aliased := Lookup(t.aliasToSubdivision, territoryCode);
    match NormalizeTerritoryCode(t, db, aliased, true, false)
    case Err(e) => Err(e)
    case Ok(code) =>
      if code in SupportedCountryCodes(t, db) then
        Ok(if includeCountry then [CountryLookup(db, code)] else [])
      else if code in db.subdivisions then
        var country := CountryEntity(db.countries[db.subdivisions[Root(t, db, code)].countryCode]);
        Ok(if includeCountry then Chain(t, db, code) + [country] else Chain(t, db, code))
      else
        Ok([])
  }

  /** A normalized code is either a supported country or a subdivision. */
  lemma NormalizedTerritory(t: Tables, db: Database, territoryCode: string, code: string)
    requires WellFormed(t, db)
    requires NormalizeTerritoryCode(t, db, territoryCode, true, false) == Ok(code)
    ensures code in SupportedCountryCodes(t, db) || code in db.subdivisions
  {
    NormalizeResolves(t, db, territoryCode, true, false);
  }

  /** At the top of the chain, what was collected plus the top is the
      whole chain. */
  lemma ChainTop(t: Tables, db: Database, code: string, tree: seq<Territory>, s: string)
    requires WellFormed(t, db) && code in db.subdivisions && s in db.subdivisions
    requires db.subdivisions[s].parentCode.None?
    requires tree + Chain(t, db, s) == Chain(t, db, code)
    ensures tree + [SubdivisionEntity(db.subdivisions[s])] == Chain(t, db, code)
  {
    assert Chain(t, db, s) == [SubdivisionEntity(db.subdivisions[s])];
  }

  /** One step up the chain keeps what was collected plus what is left
      equal to the whole chain, and keeps the top. */
  lemma ChainUp(t: Tables, db: Database, code: string, tree: seq<Territory>, s: string)
    requires WellFormed(t, db) && code in db.subdivisions && s in db.subdivisions
    requires db.subdivisions[s].parentCode.Some?
    requires tree + Chain(t, db, s) == Chain(t, db, code)
    ensures var p := db.subdivisions[s].parentCode.value;
      && p in db.subdivisions && Rank(t, db)[p] < Rank(t, db)[s]
      && (tree + [SubdivisionEntity(db.subdivisions[s])]) + Chain(t, db, p) == Chain(t, db, code)
      && Root(t, db, p) == Root(t, db, s)
  {
    var p := db.subdivisions[s].parentCode.value;
    ChainStep(t, db, s);
    MoveHead(tree, SubdivisionEntity(db.subdivisions[s]), Chain(t, db, p), Chain(t, db, s), Chain(t, db, code));
  }

  /** The chain from a subdivision with a parent is the subdivision
      followed by the chain from its parent. */
  lemma ChainStep(t: Tables, db: Database, s: string)
    requires WellFormed(t, db) && s in db.subdivisions
    requires db.subdivisions[s].parentCode.Some?
    ensures var p := db.subdivisions[s].parentCode.value;
      && p in db.subdivisions && Rank(t, db)[p] < Rank(t, db)[s]
      && Chain(t, db, s) == [SubdivisionEntity(db.subdivisions[s])] + Chain(t, db, p)
      && Root(t, db, p) == Root(t, db, s)
  {
    ParentBelow(t, db, s);
  }

  /** `territory_parents`: walks up the parent pointers from the
      normalized subdivision, appending each subdivision, then its country
      when asked for. */
  method TerritoryParents(t: Tables, db: Database, territoryCode: string, includeCountry: bool)
    returns (r: Result<seq<Territory>, Error>)
    requires WellFormed(t, db)
    ensures r == ParentsSpec(t, db, territoryCode, includeCountry)
  {
    var tree: seq<Territory> := [];
    var aliased := Lookup(t.aliasToSubdivision, territoryCode);
    var normalized := NormalizeTerritoryCode(t, db, aliased, true, false);
    if normalized.Err? {
      return Err(normalized.error);
    }
    var code := normalized.value;
    if code in SupportedCountryCodes(t, db) {
      if includeCountry {
        AppendToEmpty([CountryLookup(db, code)]);
        tree := tree + [CountryLookup(db, code)];
      }
      return Ok(tree);
    }
    NormalizedTerritory(t, db, aliased, code);
    AppendToEmpty(Chain(t, db, code));
    var subdivisionCode := code;
    while subdivisionCode != ""
      invariant subdivisionCode in db.subdivisions
      invariant tree + Chain(t, db, subdivisionCode) == Chain(t, db, code)
      invariant Root(t, db, subdivisionCode) == Root(t, db, code)
      decreases Rank(t, db)[subdivisionCode]
    {
      var subdivision := db.subdivisions[subdivisionCode];
      if subdivision.parentCode.None? {
        ChainTop(t, db, code, tree, subdivisionCode);
        tree := tree + [SubdivisionEntity(subdivision)];
        break;
      }
      ChainUp(t, db, code, tree, subdivisionCode);
      tree := tree + [SubdivisionEntity(subdivision)];
      subdivisionCode := subdivision.parentCode.value;
    }
    if includeCountry {
      tree := tree + [CountryEntity(db.countries[db.subdivisions[subdivisionCode].countryCode])];
    }
    r := Ok(tree);
  }

  /** Each element of a chain is a subdivision whose parent is the next
      one; the chain starts at the subdivision, ends at its root, and stays
      in its country. */
  lemma {:induction false} ChainLinked(t: Tables, db: Database, s: string)
    requires WellFormed(t, db) && s in db.subdivisions
    ensures var c := Chain(t, db, s);
      && c[0] == SubdivisionEntity(db.subdivisions[s])
      && c[|c| - 1] == SubdivisionEntity(db.subdivisions[Root(t, db, s)])
      && LinkedChain(db, c, db.subdivisions[s].countryCode)
    decreases Rank(t, db)[s]
  {
    assert SubdivisionsShaped(db);
    match db.subdivisions[s].parentCode
    case None =>
    case Some(p) =>
      ChainStep(t, db, s);
      ChainLinked(t, db, p);
      LinkedPrepend(db, SubdivisionEntity(db.subdivisions[s]), Chain(t, db, p),
        db.subdivisions[s].countryCode);
  }

  /** Database subdivisions of one country, each the parent of the one
      before it. */
  predicate LinkedChain(db: Database, c: seq<Territory>, countryCode: string)
  {
    && (forall i | 0 <= i < |c| ::
          && c[i].SubdivisionEntity? && c[i].subdivision.code in db.subdivisions
          && db.subdivisions[c[i].subdivision.code] == c[i].subdivision
          && c[i].subdivision.countryCode == countryCode)
    && (forall i | 0 <= i < |c| - 1 ::
          c[i].subdivision.parentCode == Some(c[i + 1].subdivision.code))
  }

  /** A subdivision of the same country whose parent heads a linked chain
      extends it. */
  lemma LinkedPrepend(db: Database, e: Territory, rest: seq<Territory>, countryCode: string)
    requires LinkedChain(db, rest, countryCode) && |rest| > 0
    requires e.SubdivisionEntity? && e.subdivision.code in db.subdivisions
    requires db.subdivisions[e.subdivision.code] == e.subdivision
    requires e.subdivision.countryCode == countryCode
    requires e.subdivision.parentCode == Some(rest[0].subdivision.code)
    ensures LinkedChain(db, [e] + rest, countryCode)
  {
    var c := [e] + rest;
    forall i | 0 <= i < |c| - 1
      ensures c[i].subdivision.parentCode == Some(c[i + 1].subdivision.code)
    {
      if i > 0 {
        assert c[i] == rest[i - 1];
      }
    }
  }

  /** Asking for the country appends exactly one element, and the two
      calls fail alike. */
  lemma ParentsWithCountry(t: Tables, db: Database, territoryCode: string)
    requires WellFormed(t, db)
    ensures var with := ParentsSpec(t, db, territoryCode, true);
      var without := ParentsSpec(t, db, territoryCode, false);
      && (with.Ok? <==> without.Ok?)
      && (with.Err? ==> with == without)
      && (with.Ok? ==> |with.value| == |without.value| + 1
                       && with.value[..|without.value|] == without.value)
  {
    var aliased := Lookup(t.aliasToSubdivision, territoryCode);
    match NormalizeTerritoryCode(t, db, aliased, true, false)
    case Err(_) =>
    case Ok(code) =>
      if code in SupportedCountryCodes(t, db) {
        ParentsOfCountry(t, db, territoryCode, true, code);
        ParentsOfCountry(t, db, territoryCode, false, code);
      } else {
        ParentsOfSubdivision(t, db, territoryCode, code);
        AppendOne(Chain(t, db, code), CountryEntity(db.countries[db.subdivisions[code].countryCode]));
      }
  }

  /** Appending one element keeps the prefix. */
  lemma AppendOne<T>(s: seq<T>, x: T)
    ensures |s + [x]| == |s| + 1 && (s + [x])[..|s|] == s
  {
  }

  /** The top of a chain is in the country of its bottom. */
  lemma {:induction false} RootCountry(t: Tables, db: Database, s: string)
    requires WellFormed(t, db) && s in db.subdivisions
    ensures db.subdivisions[Root(t, db, s)].countryCode == db.subdivisions[s].countryCode
    decreases Rank(t, db)[s]
  {
    if db.subdivisions[s].parentCode.Some? {
      ParentBelow(t, db, s);
      RootCountry(t, db, db.subdivisions[s].parentCode.value);
    }
  }

  /** A code naming a country gives that country, or nothing without it. */
  lemma ParentsOfCountry(t: Tables, db: Database, territoryCode: string, includeCountry: bool, code: string)
    requires WellFormed(t, db)
    requires NormalizeTerritoryCode(t, db, Lookup(t.aliasToSubdivision, territoryCode), true, false) == Ok(code)
    requires code in SupportedCountryCodes(t, db)
    ensures ParentsSpec(t, db, territoryCode, includeCountry)
      == Ok(if includeCountry then [CountryLookup(db, code)] else [])
  {
  }

  /** A code naming a subdivision gives the subdivision's chain, which
      starts at the subdivision itself, followed by the subdivision's
      country. */
  lemma ParentsOfSubdivision(t: Tables, db: Database, territoryCode: string, code: string)
    requires WellFormed(t, db)
    requires NormalizeTerritoryCode(t, db, Lookup(t.aliasToSubdivision, territoryCode), true, false) == Ok(code)
    requires code !in SupportedCountryCodes(t, db)
    ensures code in db.subdivisions
    ensures ParentsSpec(t, db, territoryCode, true)
      == Ok(Chain(t, db, code) + [CountryEntity(db.countries[db.subdivisions[code].countryCode])])
    ensures ParentsSpec(t, db, territoryCode, false) == Ok(Chain(t, db, code))
    ensures Chain(t, db, code)[0] == SubdivisionEntity(db.subdivisions[code])
  {
    NormalizedTerritory(t, db, Lookup(t.aliasToSubdivision, territoryCode), code);
    RootCountry(t, db, code);
  }

  /** The code of a territory object, when there is one. */
  function EntityCode(territory: Territory): Option<string>
  {
    match territory
    case CountryEntity(country) => Some(country.alpha2)
    case SubdivisionEntity(subdivision) => Some(subdivision.code)
    case Missing => None
  }

  /** The codes of a list of territories, or the AttributeError that reading
      `__module__` of the first missing one (a None) raises. */
  function EntityCodes(territories: seq<Territory>): Result<seq<string>, Error>
  {
    if forall i | 0 <= i < |territories| :: EntityCode(territories[i]).Some?
    then Ok(seq(|territories|, i requires 0 <= i < |territories| => EntityCode(territories[i]).value))
    else Err(AttributeError)
  }

  /** What `territory_parents_codes` returns. */
  ghost function ParentsCodesSpec(t: Tables, db: Database, territoryCode: string, includeCountry: bool)
    : Result<seq<string>, Error>
    requires WellFormed(t, db)
  {
    match ParentsSpec(t, db, territoryCode, includeCountry)
    case Err(e) => Err(e)
    case Ok(territories) => EntityCodes(territories)
  }

  /** `territory_parents_codes`: the code of each object `territory_parents`
      returns; a None among them raises AttributeError. */
  method TerritoryParentsCodes(t: Tables, db: Database, territoryCode: string, includeCountry: bool)
    returns (r: Result<seq<string>, Error>)
    requires WellFormed(t, db)
    ensures r == ParentsCodesSpec(t, db, territoryCode, includeCountry)
  {
    var parents := TerritoryParents(t, db, territoryCode, includeCountry);
    if parents.Err? {
      return Err(parents.error);
    }
    r := TerritoryCodes(parents.value);
  }

  /** The loop of `territory_parents_codes` over the territory objects. */
  method TerritoryCodes(territories: seq<Territory>) returns (r: Result<seq<string>, Error>)
    ensures r == EntityCodes(territories)
  {
    var codes: seq<string> := [];
    var i := 0;
    while i < |territories|
      invariant 0 <= i <= |territories|
      invariant forall j | 0 <= j < i :: EntityCode(territories[j]).Some?
      invariant codes == seq(i, j requires 0 <= j < i => EntityCode(territories[j]).value)
    {
      match territories[i] {
        case CountryEntity(country) =>
          codes := codes + [country.alpha2];
        case SubdivisionEntity(subdivision) =>
          codes := codes + [subdivision.code];
        case Missing =>
          return Err(AttributeError);
      }
      i := i + 1;
    }
    r := Ok(codes);
  }

  /** For a country, the codes are that country's code, or nothing without
      it; asking for a supported country that the database lacks raises. */
  lemma ParentsCodesOfCountry(t: Tables, db: Database, territoryCode: string, includeCountry: bool,
                              code: string)
    requires WellFormed(t, db)
    requires NormalizeTerritoryCode(t, db, Lookup(t.aliasToSubdivision, territoryCode), true, false) == Ok(code)
    requires code in SupportedCountryCodes(t, db)
    ensures ParentsCodesSpec(t, db, territoryCode, includeCountry)
      == if !includeCountry then Ok([])
         else if code in db.countries then Ok([code])
         else Err(AttributeError)
  {
    ParentsOfCountry(t, db, territoryCode, includeCountry, code);
    CountryCodes(db, code, includeCountry);
  }

  /** The codes of the list a country gives. */
  lemma CountryCodes(db: Database, code: string, includeCountry: bool)
    requires CountriesShaped(db)
    ensures EntityCodes(if includeCountry then [CountryLookup(db, code)] else [])
      == if !includeCountry then Ok([])
         else if code in db.countries then Ok([code])
         else Err(AttributeError)
  {
    if !includeCountry {
      assert EntityCodes([]).value == [];
    } else if code in db.countries {
      EntityCodesSingle(CountryLookup(db, code));
    } else {
      assert EntityCode([CountryLookup(db, code)][0]).None?;
    }
  }

  /** The codes of a chain: every element is a subdivision, so none is
      missing, and the first is the subdivision's own code. */
  lemma ChainCodes(t: Tables, db: Database, code: string)
    requires WellFormed(t, db) && code in db.subdivisions
    ensures EntityCodes(Chain(t, db, code)).Ok?
    ensures |EntityCodes(Chain(t, db, code)).value| >= 1
    ensures EntityCodes(Chain(t, db, code)).value[0] == code
  {
    ChainLinked(t, db, code);
    assert SubdivisionsShaped(db);
  }

  /** For a subdivision, the codes never fail: they are the codes of its
      chain, which start with its own code, followed on demand by its
      country's code. */
  lemma ParentsCodesOfSubdivision(t: Tables, db: Database, territoryCode: string, includeCountry: bool,
                                  code: string)
    requires WellFormed(t, db)
    requires NormalizeTerritoryCode(t, db, Lookup(t.aliasToSubdivision, territoryCode), true, false) == Ok(code)
    requires code !in SupportedCountryCodes(t, db)
    ensures code in db.subdivisions && EntityCodes(Chain(t, db, code)).Ok?
    ensures ParentsCodesSpec(t, db, territoryCode, includeCountry)
      == Ok(EntityCodes(Chain(t, db, code)).value
            + if includeCountry then [db.subdivisions[code].countryCode] else [])
  {
    ParentsOfSubdivision(t, db, territoryCode, code);
    ChainCodes(t, db, code);
    var country := CountryEntity(db.countries[db.subdivisions[code].countryCode]);
    assert CountriesShaped(db);
    assert ParentsSpec(t, db, territoryCode, includeCountry)
      == Ok(if includeCountry then Chain(t, db, code) + [country] else Chain(t, db, code));
    EntityCodesMaybeAppend(Chain(t, db, code), country, includeCountry);
  }

  /** Appending a territory with a code appends its code. */
  lemma EntityCodesAppend(territories: seq<Territory>, territory: Territory)
    requires EntityCodes(territories).Ok? && EntityCode(territory).Some?
    ensures EntityCodes(territories + [territory])
      == Ok(EntityCodes(territories).value + [EntityCode(territory).value])
  {
    var all := territories + [territory];
    assert forall i | 0 <= i < |all| :: all[i] == if i < |territories| then territories[i] else territory;
    var codes := EntityCodes(all).value;
    var expected := EntityCodes(territories).value + [EntityCode(territory).value];
    assert |codes| == |expected|;
    forall i | 0 <= i < |codes| ensures codes[i] == expected[i] {
    }
    assert codes == expected;
  }

  /** Appending a territory with a code, or not, appends its code, or not. */
  lemma EntityCodesMaybeAppend(territories: seq<Territory>, territory: Territory, append: bool)
    requires EntityCodes(territories).Ok? && EntityCode(territory).Some?
    ensures EntityCodes(if append then territories + [territory] else territories)
      == Ok(EntityCodes(territories).value + if append then [EntityCode(territory).value] else [])
  {
    if append {
      EntityCodesAppend(territories, territory);
    } else {
      assert EntityCodes(territories).value + [] == EntityCodes(territories).value;
    }
  }

  /** A single territory with a code gives that code. */
  lemma EntityCodesSingle(territory: Territory)
    requires EntityCode(territory).Some?
    ensures EntityCodes([territory]) == Ok([EntityCode(territory).value])
  {
    var codes := EntityCodes([territory]).value;
    assert codes[0] == EntityCode(territory).value;
    assert codes == [EntityCode(territory).value];
  }

  // ----------------------------------------------------------------------
  // Country aliases
  // ----------------------------------------------------------------------

  /** Where the alias walk of a subdivision goes next: its parent, or its
      country at the top of the chain. */
  function Up(db: Database, s: string): string
    requires s in db.subdivisions
  {
    match db.subdivisions[s].parentCode
    case Some(p) => p
    case None => db.subdivisions[s].countryCode
  }

  /** A measure that every step of the alias walk decreases: a country sits
      above the codes its reverse-index entry reaches, and a subdivision
      above its parent, its country and its alias target. */
  function AliasLevel(t: Tables, rank: map<string, nat>, code: string): nat
  {
    if |code| == 2 then
      if code in t.reserved || code in t.countryAliases then 4
      else if code in t.foreign then 3
      else if code in t.subdivisionCountries.Values then 2
      else 0
    else if code in t.subdivisionCountries then 1
    else if code in t.subdivisionAliases then 6
    else if code in t.subdivisionAliases.Values then 5
    else 7 + if code in rank then rank[code] else 0
  }

  /** Every hit of a country code is lower in the walk. */
  lemma CountryHitLower(t: Tables, rank: map<string, nat>, code: string, c: string)
    requires Valid(t) && |code| == 2 && c in HitsIn(t, code)
    ensures AliasLevel(t, rank, c) < AliasLevel(t, rank, code)
  {
    HitIn(t, code, c);
    if c in t.subdivisionCountries && t.subdivisionCountries[c] == code {
      assert code in t.subdivisionCountries.Values;
    }
  }

  /** A subdivision's only possible hit is its alias target, lower in the
      walk. */
  lemma SubdivisionHitLower(t: Tables, rank: map<string, nat>, code: string, c: string)
    requires Valid(t) && CountryValued(t.subdivisionCountries)
    requires |code| > 2 && c in HitsIn(t, code)
    ensures code in t.subdivisionAliases && c == t.subdivisionAliases[code]
    ensures AliasLevel(t, rank, c) < AliasLevel(t, rank, code)
  {
    HitIn(t, code, c);
    assert c in t.subdivisionAliases.Values;
  }

  /** Every hit is a supported code. */
  lemma HitSupported(t: Tables, db: Database, code: string, c: string)
    requires Known(t, db) && c in HitsIn(t, code)
    ensures c in SupportedTerritoryCodes(t, db)
  {
    HitIn(t, code, c);
  }

  /** The targets of `SUBDIVISION_COUNTRIES` are country codes. */
  lemma SubdivisionCountryTargets(t: Tables, db: Database)
    requires Known(t, db) && CountriesShaped(db)
    ensures CountryValued(t.subdivisionCountries)
  {
  }

  /** A parent is lower in the walk than its child. */
  lemma ParentLower(t: Tables, db: Database, rank: map<string, nat>, code: string)
    requires Known(t, db) && Ranked(db.subdivisions, rank)
    requires code in db.subdivisions && db.subdivisions[code].parentCode.Some?
    requires |code| > 2 && |db.subdivisions[code].parentCode.value| > 2
    ensures var p := db.subdivisions[code].parentCode.value;
      AliasLevel(t, rank, p) < AliasLevel(t, rank, code)
  {
    // Alias targets are top-level subdivisions, and this one has a parent.
    assert code !in t.subdivisionAliases.Values by {
      forall k | k in t.subdivisionAliases ensures t.subdivisionAliases[k] != code {
      }
    }
  }

  /** The country of a subdivision code is lower in the walk than the code. */
  lemma CountryLower(t: Tables, rank: map<string, nat>, code: string)
    requires Valid(t) && |code| > 2
    ensures AliasLevel(t, rank, code[..2]) < AliasLevel(t, rank, code)
  {
    assert |code[..2]| == 2;
  }

  /** The step up from a subdivision is a supported code lower in the walk. */
  lemma UpLower(t: Tables, db: Database, rank: map<string, nat>, code: string)
    requires Valid(t) && Known(t, db) && SubdivisionsShaped(db) && Ranked(db.subdivisions, rank)
    requires code in db.subdivisions
    ensures Up(db, code) in SupportedTerritoryCodes(t, db)
    ensures AliasLevel(t, rank, Up(db, code)) < AliasLevel(t, rank, code)
  {
    assert ParentInCountry(db, code);
    if db.subdivisions[code].parentCode.Some? {
      ParentLower(t, db, rank, code);
    } else {
      CountryLower(t, rank, code);
    }
  }

  /** Every step of the alias walk from a supported code reaches a
      supported code lower in the walk. */
  lemma AliasesLower(t: Tables, db: Database, code: string)
    requires WellFormed(t, db) && code in SupportedTerritoryCodes(t, db)
    ensures forall c | c in HitsIn(t, code) ::
      c in SupportedTerritoryCodes(t, db)
      && AliasLevel(t, Rank(t, db), c) < AliasLevel(t, Rank(t, db), code)
    ensures code !in SupportedCountryCodes(t, db) ==>
      && code in db.subdivisions && Up(db, code) in SupportedTerritoryCodes(t, db)
      && AliasLevel(t, Rank(t, db), Up(db, code)) < AliasLevel(t, Rank(t, db), code)
  {
    var rank := Rank(t, db);
    SupportedCode(t, db, code);
    SubdivisionCountryTargets(t, db);
    forall c | c in HitsIn(t, code)
      ensures c in SupportedTerritoryCodes(t, db) && AliasLevel(t, rank, c) < AliasLevel(t, rank, code)
    {
      HitSupported(t, db, code, c);
      if |code| == 2 {
        CountryHitLower(t, rank, code, c);
      } else {
        SubdivisionHitLower(t, rank, code, c);
      }
    }
    if code !in SupportedCountryCodes(t, db) {
      UpLower(t, db, rank, code);
    }
  }

  /** The own country code `SUBDIVISION_COUNTRIES` gives a subdivision, when
      it gives a non-empty one. */
  function SubdivisionCountryAlias(t: Tables, code: string): set<string>
  {
    if code in t.subdivisionCountries && t.subdivisionCountries[code] != "" then
      {t.subdivisionCountries[code]}
    else {}
  }

  /** Adding the own country code of a subdivision when there is one. */
  lemma SubdivisionCountryAliasAdded(t: Tables, code: string, before: set<string>, after: set<string>)
    requires after ==
      if code in t.subdivisionCountries && t.subdivisionCountries[code] != "" then
        before + {t.subdivisionCountries[code]}
      else before
    ensures after == before + SubdivisionCountryAlias(t, code)
  {
  }

  /** The aliases of a supported code: its own part, and the aliases of
      every reverse-index hit. */
  ghost function AliasSet(t: Tables, db: Database, code: string): set<string>
    requires WellFormed(t, db) && code in SupportedTerritoryCodes(t, db)
    decreases AliasLevel(t, Rank(t, db), code), 2
  {
    AliasesLower(t, db, code);
    OwnAliases(t, db, code) + AliasesOf(t, db, code, HitsIn(t, code))
  }

  /** The own part of the aliases of a supported code: itself when it is a
      country, else the aliases of the next code up and its own country
      code. */
  ghost function OwnAliases(t: Tables, db: Database, code: string): set<string>
    requires WellFormed(t, db) && code in SupportedTerritoryCodes(t, db)
    decreases AliasLevel(t, Rank(t, db), code), 1
  {
    AliasesLower(t, db, code);
    if code in SupportedCountryCodes(t, db) then {code}
    else AliasSet(t, db, Up(db, code)) + SubdivisionCountryAlias(t, code)
  }

  /** The aliases of some of the hits of `code` together. */
  ghost function AliasesOf(t: Tables, db: Database, code: string, codes: set<string>): set<string>
    requires WellFormed(t, db) && code in SupportedTerritoryCodes(t, db)
    requires codes <= HitsIn(t, code)
    decreases AliasLevel(t, Rank(t, db), code), 0
  {
    AliasesLower(t, db, code);
    set c, a | c in codes && a in AliasSet(t, db, c) :: a
  }

  /** `country_aliases`: fails on a code that is neither a supported country
      nor a database subdivision. */
  ghost function AliasesSpec(t: Tables, db: Database, territoryCode: string): Result<set<string>, Error>
    requires WellFormed(t, db)
  {
    if territoryCode in SupportedTerritoryCodes(t, db) then Ok(AliasSet(t, db, territoryCode))
    else Err(AttributeError)
  }

  /** No hits have no aliases. */
  lemma AliasesOfNone(t: Tables, db: Database, code: string, own: set<string>)
    requires WellFormed(t, db) && code in SupportedTerritoryCodes(t, db)
    ensures own + AliasesOf(t, db, code, {}) == own
  {
  }

  lemma AliasesOfDrain(t: Tables, db: Database, code: string, own: set<string>,
                       todo: set<string>, c: string, found: set<string>)
    requires WellFormed(t, db) && code in SupportedTerritoryCodes(t, db)
    requires todo <= HitsIn(t, code) && c in todo
    requires found == own + AliasesOf(t, db, code, HitsIn(t, code) - todo)
    ensures c in SupportedTerritoryCodes(t, db)
    ensures found + AliasSet(t, db, c) == own + AliasesOf(t, db, code, HitsIn(t, code) - (todo - {c}))
  {
    DrainStep(HitsIn(t, code), todo, c);
    AliasesOfAdd(t, db, code, own, HitsIn(t, code) - todo, c, found);
  }

  /** Adding one hit to a group adds its aliases. */
  lemma AliasesOfAdd(t: Tables, db: Database, code: string, own: set<string>,
                     codes: set<string>, c: string, found: set<string>)
    requires WellFormed(t, db) && code in SupportedTerritoryCodes(t, db)
    requires codes <= HitsIn(t, code) && c in HitsIn(t, code)
    requires found == own + AliasesOf(t, db, code, codes)
    ensures c in SupportedTerritoryCodes(t, db)
    ensures found + AliasSet(t, db, c) == own + AliasesOf(t, db, code, codes + {c})
  {
    AliasesLower(t, db, code);
  }

  /** The country code of a subdivision's database entry is its key in the
      country table, so looking its country up gives the step up. */
  lemma UpIsCountry(t: Tables, db: Database, code: string)
    requires WellFormed(t, db) && code in db.subdivisions
    ensures db.subdivisions[code].countryCode in db.countries
    ensures db.subdivisions[code].parentCode.None? ==>
      db.countries[db.subdivisions[code].countryCode].alpha2 == Up(db, code)
  {
  }

  /** `country_aliases`: the set of country codes that stand for a
      territory, found by walking up the parent chain and through the
      reverse alias index. */
  method CountryAliases(t: Tables, db: Database, territoryCode: string)
    returns (r: Result<set<string>, Error>)
    requires WellFormed(t, db)
    ensures r == AliasesSpec(t, db, territoryCode)
    decreases AliasLevel(t, Rank(t, db), territoryCode), 2
  {
    var countryCodes: set<string> := {};
    if territoryCode in SupportedCountryCodes(t, db) {
      countryCodes := {territoryCode};
      OwnAliasesOfCountry(t, db, territoryCode);
    } else {
      if territoryCode !in db.subdivisions {
        return Err(AttributeError);
      }
      var subdiv := db.subdivisions[territoryCode];
      UpIsCountry(t, db, territoryCode);
      var parentCode := match subdiv.parentCode
        case Some(p) => p
        case None => db.countries[subdiv.countryCode].alpha2;
      AliasesLower(t, db, territoryCode);
      var parentAliases := CountryAliases(t, db, parentCode);
      countryCodes := parentAliases.value;
      if territoryCode in t.subdivisionCountries {
        var subdivCountry := t.subdivisionCountries[territoryCode];
        if subdivCountry != "" {
          countryCodes := countryCodes + {subdivCountry};
        }
      }
      SubdivisionCountryAliasAdded(t, territoryCode, parentAliases.value, countryCodes);
      OwnAliasesOfSubdivision(t, db, territoryCode);
    }
    r := HuntAliases(t, db, territoryCode, countryCodes);
    AliasSetSplit(t, db, territoryCode);
  }

  /** The last part of `country_aliases`: adds the aliases of every
      reverse-index hit of a supported code to the aliases `own` found so
      far. */
  method HuntAliases(t: Tables, db: Database, territoryCode: string, own: set<string>)
    returns (r: Result<set<string>, Error>)
    requires WellFormed(t, db) && territoryCode in SupportedTerritoryCodes(t, db)
    ensures r == Ok(own + AliasesOf(t, db, territoryCode, HitsIn(t, territoryCode)))
    decreases AliasLevel(t, Rank(t, db), territoryCode), 1
  {
    var countryCodes := own;
    ghost var hits := HitsIn(t, territoryCode);
    var todo := ReverseMappingGet(t, territoryCode);
    DrainStart(hits);
    AliasesOfNone(t, db, territoryCode, own);
    while todo != {}
      invariant todo <= hits
      invariant countryCodes == own + AliasesOf(t, db, territoryCode, hits - todo)
      decreases |todo|
    {
      var mappedCode :| mappedCode in todo;
      var aliases := HitAliases(t, db, territoryCode, mappedCode);
      AliasesOfDrain(t, db, territoryCode, own, todo, mappedCode, countryCodes);
      countryCodes := countryCodes + aliases;
      todo := todo - {mappedCode};
    }
    DrainEnd(hits);
    r := Ok(countryCodes);
  }

  /** `REVERSE_MAPPING.get(code, [])`. */
  method ReverseMappingGet(t: Tables, code: string) returns (mapped: set<string>)
    ensures mapped == HitsIn(t, code)
  {
    ReverseIndexAt(t, code);
    mapped := Entry(ReverseIndex(t), code);
  }

  /** The aliases of one reverse-index hit. */
  method HitAliases(t: Tables, db: Database, territoryCode: string, mappedCode: string)
    returns (aliases: set<string>)
    requires WellFormed(t, db) && territoryCode in SupportedTerritoryCodes(t, db)
    requires mappedCode in HitsIn(t, territoryCode)
    ensures mappedCode in SupportedTerritoryCodes(t, db)
    ensures aliases == AliasSet(t, db, mappedCode)
    decreases AliasLevel(t, Rank(t, db), territoryCode), 0
  {
    AliasesLower(t, db, territoryCode);
    var r := CountryAliases(t, db, mappedCode);
    aliases := r.value;
  }

  /** The aliases of a group of hits include those of each member. */
  lemma AliasesOfIncludes(t: Tables, db: Database, code: string, codes: set<string>, c: string)
    requires WellFormed(t, db) && code in SupportedTerritoryCodes(t, db)
    requires codes <= HitsIn(t, code) && c in codes
    ensures c in SupportedTerritoryCodes(t, db)
    ensures AliasSet(t, db, c) <= AliasesOf(t, db, code, codes)
  {
    AliasesLower(t, db, code);
  }

  /** The aliases of a group of hits stay within a bound when those of
      each member do. */
  lemma AliasesOfWithin(t: Tables, db: Database, code: string, codes: set<string>, bound: set<string>)
    requires WellFormed(t, db) && code in SupportedTerritoryCodes(t, db)
    requires codes <= HitsIn(t, code)
    requires forall c | c in codes :: c in SupportedTerritoryCodes(t, db) && AliasSet(t, db, c) <= bound
    ensures AliasesOf(t, db, code, codes) <= bound
  {
    AliasesLower(t, db, code);
  }

  /** The aliases of a code are its own part and those of its hits. */
  lemma AliasSetSplit(t: Tables, db: Database, code: string)
    requires WellFormed(t, db) && code in SupportedTerritoryCodes(t, db)
    ensures HitsIn(t, code) <= SupportedTerritoryCodes(t, db)
    ensures AliasSet(t, db, code) == OwnAliases(t, db, code) + AliasesOf(t, db, code, HitsIn(t, code))
  {
    AliasesLower(t, db, code);
  }

  /** The own part of the aliases of a country is the country. */
  lemma OwnAliasesOfCountry(t: Tables, db: Database, code: string)
    requires WellFormed(t, db) && code in SupportedCountryCodes(t, db)
    ensures OwnAliases(t, db, code) == {code}
  {
  }

  /** The own part of the aliases of a subdivision is what the step up
      finds and its own country code. */
  lemma OwnAliasesOfSubdivision(t: Tables, db: Database, code: string)
    requires WellFormed(t, db) && code in SupportedTerritoryCodes(t, db)
    requires code !in SupportedCountryCodes(t, db)
    ensures code in db.subdivisions && Up(db, code) in SupportedTerritoryCodes(t, db)
    ensures OwnAliases(t, db, code) == AliasSet(t, db, Up(db, code)) + SubdivisionCountryAlias(t, code)
  {
    AliasesLower(t, db, code);
  }

  /** A supported country is among its own aliases. */
  lemma CountryAliasesSelf(t: Tables, db: Database, code: string)
    requires WellFormed(t, db) && code in SupportedCountryCodes(t, db)
    ensures code in AliasSet(t, db, code)
  {
    AliasSetSplit(t, db, code);
    UnionParts(AliasSet(t, db, code), OwnAliases(t, db, code), AliasesOf(t, db, code, HitsIn(t, code)));
  }

  /** The aliases of a hit are aliases of the code that reaches it. */
  lemma HitAliasesIncluded(t: Tables, db: Database, code: string, c: string)
    requires WellFormed(t, db) && code in SupportedTerritoryCodes(t, db)
    requires c in HitsIn(t, code)
    ensures c in SupportedTerritoryCodes(t, db)
    ensures AliasSet(t, db, c) <= AliasSet(t, db, code)
  {
    AliasSetSplit(t, db, code);
    AliasesOfIncludes(t, db, code, HitsIn(t, code), c);
    UnionParts(AliasSet(t, db, code), OwnAliases(t, db, code), AliasesOf(t, db, code, HitsIn(t, code)));
  }

  /** Every alias is a supported country code. */
  lemma {:induction false} AliasesAreCountries(t: Tables, db: Database, code: string)
    requires WellFormed(t, db) && code in SupportedTerritoryCodes(t, db)
    ensures AliasSet(t, db, code) <= SupportedCountryCodes(t, db)
    decreases AliasLevel(t, Rank(t, db), code)
  {
    var countries := SupportedCountryCodes(t, db);
    AliasesLower(t, db, code);
    if code !in countries {
      AliasesAreCountries(t, db, Up(db, code));
      OwnAliasesAreCountries(t, db, code);
    }
    forall c | c in HitsIn(t, code)
      ensures c in SupportedTerritoryCodes(t, db) && AliasSet(t, db, c) <= countries
    {
      AliasesAreCountries(t, db, c);
    }
    AliasesWithin(t, db, code, countries);
  }

  /** The own part of the aliases of a subdivision are countries when those
      of the next code up are. */
  lemma OwnAliasesAreCountries(t: Tables, db: Database, code: string)
    requires WellFormed(t, db) && code in SupportedTerritoryCodes(t, db)
    requires code !in SupportedCountryCodes(t, db)
    requires Up(db, code) in SupportedTerritoryCodes(t, db)
    requires AliasSet(t, db, Up(db, code)) <= SupportedCountryCodes(t, db)
    ensures OwnAliases(t, db, code) <= SupportedCountryCodes(t, db)
  {
    UnionBelow(AliasSet(t, db, Up(db, code)), SubdivisionCountryAlias(t, code), SupportedCountryCodes(t, db));
  }

  /** The aliases of a code are within a bound when its own part and the
      aliases of its hits are. */
  lemma AliasesWithin(t: Tables, db: Database, code: string, bound: set<string>)
    requires WellFormed(t, db) && code in SupportedTerritoryCodes(t, db)
    requires code in SupportedCountryCodes(t, db) ==> code in bound
    requires code !in SupportedCountryCodes(t, db) ==> OwnAliases(t, db, code) <= bound
    requires forall c | c in HitsIn(t, code) :: c in SupportedTerritoryCodes(t, db) && AliasSet(t, db, c) <= bound
    ensures AliasSet(t, db, code) <= bound
  {
    AliasesOfWithin(t, db, code, HitsIn(t, code), bound);
    AliasSetSplit(t, db, code);
    UnionBelow(OwnAliases(t, db, code), AliasesOf(t, db, code, HitsIn(t, code)), bound);
  }

  /** The database country of a subdivision is among its aliases. */
  lemma {:induction false} SubdivisionCountryInAliases(t: Tables, db: Database, code: string)
    requires WellFormed(t, db) && code in db.subdivisions
    ensures code in SupportedTerritoryCodes(t, db)
    ensures db.subdivisions[code].countryCode in AliasSet(t, db, code)
    decreases Rank(t, db)[code]
  {
    SupportedCode(t, db, code);
    AliasSetSplit(t, db, code);
    var up := AliasSet(t, db, Up(db, code));
    UnionParts(OwnAliases(t, db, code), up, SubdivisionCountryAlias(t, code));
    UnionParts(AliasSet(t, db, code), OwnAliases(t, db, code), AliasesOf(t, db, code, HitsIn(t, code)));
    match db.subdivisions[code].parentCode
    case Some(p) =>
      ParentBelow(t, db, code);
      SubdivisionCountryInAliases(t, db, p);
    case None =>
      CountryAliasesSelf(t, db, db.subdivisions[code].countryCode);
  }

  /** The own country code of a subdivision is among its aliases. */
  lemma OwnCountryInAliases(t: Tables, db: Database, code: string)
    requires WellFormed(t, db) && code in db.subdivisions && code in t.subdivisionCountries
    ensures code in SupportedTerritoryCodes(t, db)
    ensures t.subdivisionCountries[code] in AliasSet(t, db, code)
  {
    SupportedCode(t, db, code);
    AliasSetSplit(t, db, code);
    OwnAliasesOfSubdivision(t, db, code);
    UnionParts(OwnAliases(t, db, code), AliasSet(t, db, Up(db, code)), SubdivisionCountryAlias(t, code));
    UnionParts(AliasSet(t, db, code), OwnAliases(t, db, code), AliasesOf(t, db, code, HitsIn(t, code)));
  }

  /** The country `country_from_subdivision` finds for a supported code is
      among the code's aliases. */
  lemma CountryFromSubdivisionInAliases(t: Tables, db: Database, code: string)
    requires WellFormed(t, db) && code in SupportedTerritoryCodes(t, db)
    ensures CountryFromSubdivision(t, db, code).Some?
    ensures CountryFromSubdivision(t, db, code).value in AliasSet(t, db, code)
  {
    CountryFromSubdivisionDefined(t, db, code);
    if code in SupportedCountryCodes(t, db) {
      CountryAliasesSelf(t, db, code);
    } else if code in t.subdivisionCountries {
      OwnCountryInAliases(t, db, code);
    } else {
      SubdivisionCountryInAliases(t, db, code);
    }
  }

  /** Resolving reserved and European Commission codes stays within the
      aliases. */
  lemma ResolvedCountryInAliases(t: Tables, db: Database, code: string)
    requires WellFormed(t, db) && code in SupportedCountryCodes(t, db)
    ensures ResolveCountryCode(t, code) in SupportedCountryCodes(t, db)
    ensures AliasSet(t, db, ResolveCountryCode(t, code)) <= AliasSet(t, db, code)
  {
    var c1 := ResolveCountryCode(t, code);
    if code in t.reserved || code in t.countryAliases {
      HitIn(t, code, c1);
      HitAliasesIncluded(t, db, code, c1);
    }
  }

  /** The country a foreign territory is attached to is among its
      aliases. */
  lemma AttachedCountryInAliases(t: Tables, db: Database, code: string)
    requires WellFormed(t, db) && code in SupportedCountryCodes(t, db)
    ensures TerritoryAttachment(t, code) in AliasSet(t, db, code)
  {
    CountryAliasesSelf(t, db, code);
    if code in t.foreign {
      HitIn(t, code, t.foreign[code]);
      HitAliasesIncluded(t, db, code, t.foreign[code]);
      CountryAliasesSelf(t, db, t.foreign[code]);
    }
  }

  /** A supported country code normalizes to its resolved form, attached
      to its country on demand; the subdivision tables do not apply. */
  lemma NormalizedCountry(t: Tables, db: Database, code: string,
                          resolveAliases: bool, resolveTopCountry: bool)
    requires WellFormed(t, db) && code in SupportedCountryCodes(t, db)
    ensures NormalizeTerritoryCode(t, db, code, resolveAliases, resolveTopCountry) ==
      Ok(if resolveTopCountry then TerritoryAttachment(t, ResolveCountryCode(t, code))
         else ResolveCountryCode(t, code))
  {
    SupportedCode(t, db, code);
    CleanOfCode(code);
    var c1 := ResolveCountryCode(t, code);
    ResolveCountryCodeSpec(t, db, code);
    SupportedCode(t, db, c1);
    assert ResolveSubdivisionAlias(t, c1) == c1;
  }

  /** A supported country code normalizes, with any flags, to one of its
      aliases: the aliases are the codes a country code may safely be
      replaced with. */
  lemma NormalizedCountryInAliases(t: Tables, db: Database, code: string,
                                   resolveAliases: bool, resolveTopCountry: bool)
    requires WellFormed(t, db) && code in SupportedCountryCodes(t, db)
    ensures NormalizeTerritoryCode(t, db, code, resolveAliases, resolveTopCountry).Ok?
    ensures NormalizeTerritoryCode(t, db, code, resolveAliases, resolveTopCountry).value
      in AliasSet(t, db, code)
  {
    var c1 := ResolveCountryCode(t, code);
    NormalizedCountry(t, db, code, resolveAliases, resolveTopCountry);
    ResolvedCountryInAliases(t, db, code);
    if resolveTopCountry {
      AttachedCountryInAliases(t, db, c1);
    } else {
      CountryAliasesSelf(t, db, c1);
    }
  }

  /** A country that no alias table mentions is its only alias. */
  lemma AliasesWithoutHits(t: Tables, db: Database, code: string)
    requires WellFormed(t, db) && code in SupportedCountryCodes(t, db)
    requires HitsIn(t, code) == {}
    ensures AliasSet(t, db, code) == {code}
  {
    AliasSetSplit(t, db, code);
    OwnAliasesOfCountry(t, db, code);
    AliasesOfNone(t, db, code, {code});
  }

  /** A country with a single hit has that hit's aliases besides itself. */
  lemma AliasesWithOneHit(t: Tables, db: Database, code: string, c: string)
    requires WellFormed(t, db) && code in SupportedCountryCodes(t, db)
    requires HitsIn(t, code) == {c}
    ensures c in SupportedTerritoryCodes(t, db)
    ensures AliasSet(t, db, code) == {code} + AliasSet(t, db, c)
  {
    AliasSetSplit(t, db, code);
    OwnAliasesOfCountry(t, db, code);
    AliasesOfNone(t, db, code, {code});
    AddToNothing(c);
    AliasesOfAdd(t, db, code, {code}, {}, c, {code});
  }

  /** A country whose one hit is a country whose one hit is a country
      without hits has those three codes as its aliases. */
  lemma AliasChain(t: Tables, db: Database, a: string, b: string, c: string)
    requires WellFormed(t, db) && a in SupportedCountryCodes(t, db)
    requires b in SupportedCountryCodes(t, db) && c in SupportedCountryCodes(t, db)
    requires HitsIn(t, a) == {b} && HitsIn(t, b) == {c} && HitsIn(t, c) == {}
    ensures AliasSet(t, db, a) == {a, b, c}
  {
    AliasesWithoutHits(t, db, c);
    AliasesWithOneHit(t, db, b, c);
    AliasesWithOneHit(t, db, a, b);
    ThreeMembers(a, b, c, AliasSet(t, db, a), AliasSet(t, db, b), AliasSet(t, db, c));
  }

  lemma ThreeMembers<T>(a: T, b: T, c: T, sa: set<T>, sb: set<T>, sc: set<T>)
    requires sc == {c} && sb == {b} + sc && sa == {a} + sb
    ensures sa == {a, b, c}
  {
  }
}
