/**
 * The behaviour of the territory functions on the literal tables of territory.py,
 * on the codes its test suite exercises. Each example rests on the few
 * entries of the literal tables it reads, stated one code at a time.
 */
module TerritoryExamples {
  import opened Common
  import opened Territory

  // The codes of the examples are clean already.

  lemma CleanBonaireMunicipality()
    ensures Clean("NL-BQ1") == "NL-BQ1"
  {
    CleanOfCode("NL-BQ1");
  }

  lemma CleanTaiwan()
    ensures Clean("CN-TW") == "CN-TW"
  {
    CleanOfCode("CN-TW");
  }

  lemma CleanGuadeloupe()
    ensures Clean("FR-GP") == "FR-GP"
  {
    CleanOfCode("FR-GP");
  }

  // The entries of the literal tables that the examples read.

  lemma GreeceEntries()
    ensures "EL" !in ReservedCountryCodes && CountryAliasMap["EL"] == "GR"
    ensures "GR" !in SubdivisionAliases && "GR" !in SubdivisionCountries
  {
  }

  lemma MetropolitanFranceEntries()
    ensures ReservedCountryCodes["FX"] == "FR" && "FR" !in CountryAliasMap
    ensures "FR" !in SubdivisionAliases && "FR" !in SubdivisionCountries
  {
    FranceSubdivisionEntries();
  }

  lemma FranceSubdivisionEntries()
    ensures "FR" !in SubdivisionAliases && "FR" !in SubdivisionCountries
  {
  }

  lemma BonaireMunicipalityEntries()
    ensures "NL-BQ1" !in ReservedCountryCodes && "NL-BQ1" !in CountryAliasMap
    ensures SubdivisionAliases["NL-BQ1"] == "BQ-BO"
  {
  }

  lemma BonaireMunicipalityTargetEntries()
    ensures "BQ-BO" !in SubdivisionCountries && "BQ-BO" !in ForeignTerritories
  {
  }

  lemma TaiwanEntries()
    ensures "CN-TW" !in ReservedCountryCodes && "CN-TW" !in CountryAliasMap
    ensures "CN-TW" !in SubdivisionAliases && SubdivisionCountries["CN-TW"] == "TW"
  {
  }

  lemma GuadeloupeEntries()
    ensures "FR-GP" !in ReservedCountryCodes && "FR-GP" !in CountryAliasMap
    ensures "FR-GP" !in SubdivisionAliases && SubdivisionCountries["FR-GP"] == "GP"
  {
  }

  lemma GuadeloupeTargetEntries()
    ensures "GP" !in SubdivisionAliases && ForeignTerritories["GP"] == "FR"
  {
  }

  lemma BonaireEntries()
    ensures "BQ" !in ReservedCountryCodes && "BQ" !in CountryAliasMap
    ensures "BQ" !in SubdivisionAliases && "BQ" !in SubdivisionCountries
    ensures ForeignTerritories["BQ"] == "NL"
  {
  }

  lemma VirginIslandsEntries()
    ensures "VI" !in ReservedCountryCodes && "VI" !in CountryAliasMap
    ensures "VI" !in SubdivisionAliases && "VI" !in SubdivisionCountries
    ensures ForeignTerritories["VI"] == "US"
  {
  }

  // normalize_territory_code

  /** `normalize_territory_code` with aliases resolved, from the table
      lookups of a clean supported code. */
  lemma NormalizeBySteps(db: Database, code: string, resolveTopCountry: bool, resolved: string, aliased: string)
    requires Clean(code) == code && code in SupportedTerritoryCodes(SourceTables, db)
    requires ResolveCountryCode(SourceTables, code) == resolved
    requires ResolveSubdivisionAlias(SourceTables, resolved) == aliased
    ensures NormalizeTerritoryCode(SourceTables, db, code, true, resolveTopCountry)
      == Ok(if resolveTopCountry then TerritoryAttachment(SourceTables, aliased) else aliased)
  {
  }

  /** European Commission codes are always rewritten. */
  lemma NormalizeGreece(db: Database)
    ensures NormalizeTerritoryCode(SourceTables, db, "EL", true, false) == Ok("GR")
  {
    CleanOfCode("EL");
    GreeceSteps(db);
    NormalizeBySteps(db, "EL", false, "GR", "GR");
  }

  lemma GreeceSteps(db: Database)
    ensures "EL" in SupportedTerritoryCodes(SourceTables, db)
    ensures ResolveCountryCode(SourceTables, "EL") == "GR"
    ensures ResolveSubdivisionAlias(SourceTables, "GR") == "GR"
  {
    GreeceEntries();
  }

  /** Reserved codes are always rewritten. */
  lemma NormalizeMetropolitanFrance(db: Database)
    ensures NormalizeTerritoryCode(SourceTables, db, "FX", true, false) == Ok("FR")
  {
    CleanOfCode("FX");
    MetropolitanFranceSteps(db);
    NormalizeBySteps(db, "FX", false, "FR", "FR");
  }

  lemma MetropolitanFranceSteps(db: Database)
    ensures "FX" in SupportedTerritoryCodes(SourceTables, db)
    ensures ResolveCountryCode(SourceTables, "FX") == "FR"
    ensures ResolveSubdivisionAlias(SourceTables, "FR") == "FR"
  {
    MetropolitanFranceEntries();
  }

  /** Subdivision aliases are rewritten when aliases are resolved, and the
      top country leaves a subdivision alone. */
  lemma NormalizeBonaireMunicipality(db: Database, resolveTopCountry: bool)
    requires "NL-BQ1" in db.subdivisions
    ensures NormalizeTerritoryCode(SourceTables, db, "NL-BQ1", true, resolveTopCountry)
      == Ok("BQ-BO")
  {
    CleanBonaireMunicipality();
    BonaireMunicipalitySteps(db);
    if resolveTopCountry {
      NormalizeBySteps(db, "NL-BQ1", true, "NL-BQ1", "BQ-BO");
    } else {
      NormalizeBySteps(db, "NL-BQ1", false, "NL-BQ1", "BQ-BO");
    }
  }

  lemma BonaireMunicipalitySteps(db: Database)
    requires "NL-BQ1" in db.subdivisions
    ensures "NL-BQ1" in SupportedTerritoryCodes(SourceTables, db)
    ensures ResolveCountryCode(SourceTables, "NL-BQ1") == "NL-BQ1"
    ensures ResolveSubdivisionAlias(SourceTables, "NL-BQ1") == "BQ-BO"
    ensures TerritoryAttachment(SourceTables, "BQ-BO") == "BQ-BO"
  {
    BonaireMunicipalityEntries();
    BonaireMunicipalityTargetEntries();
  }

  /** A subdivision with its own country code becomes that code. */
  lemma NormalizeTaiwan(db: Database)
    requires "CN-TW" in db.subdivisions
    ensures NormalizeTerritoryCode(SourceTables, db, "CN-TW", true, false) == Ok("TW")
  {
    CleanTaiwan();
    TaiwanSteps(db);
    NormalizeBySteps(db, "CN-TW", false, "CN-TW", "TW");
  }

  lemma TaiwanSteps(db: Database)
    requires "CN-TW" in db.subdivisions
    ensures "CN-TW" in SupportedTerritoryCodes(SourceTables, db)
    ensures ResolveCountryCode(SourceTables, "CN-TW") == "CN-TW"
    ensures ResolveSubdivisionAlias(SourceTables, "CN-TW") == "TW"
  {
    TaiwanEntries();
  }

  /** Guadeloupe becomes its own country code, attached to France when the
      top country is asked for. */
  lemma NormalizeGuadeloupe(db: Database)
    requires "FR-GP" in db.subdivisions
    ensures NormalizeTerritoryCode(SourceTables, db, "FR-GP", true, false) == Ok("GP")
    ensures NormalizeTerritoryCode(SourceTables, db, "FR-GP", true, true) == Ok("FR")
  {
    CleanGuadeloupe();
    GuadeloupeSteps(db);
    NormalizeBySteps(db, "FR-GP", false, "FR-GP", "GP");
    NormalizeBySteps(db, "FR-GP", true, "FR-GP", "GP");
  }

  lemma GuadeloupeSteps(db: Database)
    requires "FR-GP" in db.subdivisions
    ensures "FR-GP" in SupportedTerritoryCodes(SourceTables, db)
    ensures ResolveCountryCode(SourceTables, "FR-GP") == "FR-GP"
    ensures ResolveSubdivisionAlias(SourceTables, "FR-GP") == "GP"
    ensures TerritoryAttachment(SourceTables, "GP") == "FR"
  {
    GuadeloupeEntries();
    GuadeloupeTargetEntries();
  }

  /** A foreign territory becomes its top country when asked for, and stays
      itself otherwise. */
  lemma NormalizeBonaire(db: Database)
    requires "BQ" in db.countries
    ensures NormalizeTerritoryCode(SourceTables, db, "BQ", true, true) == Ok("NL")
    ensures NormalizeTerritoryCode(SourceTables, db, "BQ", true, false) == Ok("BQ")
  {
    CleanOfCode("BQ");
    BonaireSteps(db);
    NormalizeBySteps(db, "BQ", true, "BQ", "BQ");
    NormalizeBySteps(db, "BQ", false, "BQ", "BQ");
  }

  lemma BonaireSteps(db: Database)
    requires "BQ" in db.countries
    ensures "BQ" in SupportedTerritoryCodes(SourceTables, db)
    ensures ResolveCountryCode(SourceTables, "BQ") == "BQ"
    ensures ResolveSubdivisionAlias(SourceTables, "BQ") == "BQ"
    ensures TerritoryAttachment(SourceTables, "BQ") == "NL"
  {
    BonaireEntries();
  }

  lemma NormalizeVirginIslands(db: Database)
    requires "VI" in db.countries
    ensures NormalizeTerritoryCode(SourceTables, db, "VI", true, true) == Ok("US")
  {
    CleanOfCode("VI");
    VirginIslandsSteps(db);
    NormalizeBySteps(db, "VI", true, "VI", "VI");
  }

  lemma VirginIslandsSteps(db: Database)
    requires "VI" in db.countries
    ensures "VI" in SupportedTerritoryCodes(SourceTables, db)
    ensures ResolveCountryCode(SourceTables, "VI") == "VI"
    ensures ResolveSubdivisionAlias(SourceTables, "VI") == "VI"
    ensures TerritoryAttachment(SourceTables, "VI") == "US"
  {
    VirginIslandsEntries();
  }

  // default_subdivision_code

  /** Guam stands for the one subdivision US-GU. */
  lemma DefaultCandidatesGuam()
    ensures DefaultCandidates(SourceTables, "GU") == {"US-GU"}
  {
    GuamOwners();
    assert "GU" !in CountryAliasToSubdivision;
    var c := DefaultCandidates(SourceTables, "GU");
    assert "US-GU" in c;
    assert forall k | k in c :: k == "US-GU";
  }

  /** US-GU is the one subdivision with Guam as its own country code. */
  lemma GuamOwners()
    ensures SubdivisionCountries["US-GU"] == "GU"
    ensures forall k | k in SubdivisionCountries && SubdivisionCountries[k] == "GU" :: k == "US-GU"
  {
  }

  /** France has no candidate. */
  lemma DefaultCandidatesFrance()
    ensures DefaultCandidates(SourceTables, "FR") == {}
  {
    FranceOwners();
    assert "FR" !in CountryAliasToSubdivision;
    var c := DefaultCandidates(SourceTables, "FR");
    assert forall k | k in c :: false;
  }

  /** No subdivision has France as its own country code. */
  lemma FranceOwners()
    ensures forall k | k in SubdivisionCountries :: SubdivisionCountries[k] != "FR"
  {
  }

  /** Svalbard and Jan Mayen has two candidates, so it has no default. */
  lemma DefaultCandidatesSvalbard()
    ensures DefaultCandidates(SourceTables, "SJ") == {"NO-21", "NO-22"}
  {
    SvalbardOwners();
    assert "SJ" !in CountryAliasToSubdivision;
    var c := DefaultCandidates(SourceTables, "SJ");
    assert "NO-21" in c && "NO-22" in c;
    assert forall k | k in c :: k == "NO-21" || k == "NO-22";
  }

  /** NO-21 and NO-22 are the subdivisions with Svalbard and Jan Mayen as
      their own country code. */
  lemma SvalbardOwners()
    ensures SubdivisionCountries["NO-21"] == "SJ" && SubdivisionCountries["NO-22"] == "SJ"
    ensures forall k | k in SubdivisionCountries && SubdivisionCountries[k] == "SJ" ::
      k == "NO-21" || k == "NO-22"
  {
  }

  /** A reserved code denoting a subdivision stands for it. */
  lemma DefaultCandidatesTristan()
    ensures DefaultCandidates(SourceTables, "TA") == {"SH-TA"}
  {
  }

  // country_aliases

  lemma FranceTargets()
    ensures Preimage(SubdivisionCountries, "FR") == {}
  {
  }

  lemma DiegoGarciaTargets()
    ensures Preimage(SubdivisionCountries, "DG") == {}
  {
  }

  lemma ChagosTargets()
    ensures Preimage(SubdivisionCountries, "IO") == {}
  {
  }

  lemma BritainTargets()
    ensures Preimage(SubdivisionCountries, "GB") == {}
  {
  }

  lemma DiegoGarciaNotForeign()
    ensures "DG" !in ForeignTerritories
  {
  }

  lemma ChagosForeign()
    ensures ForeignTerritories["IO"] == "GB"
  {
  }

  lemma FranceHits()
    ensures HitsIn(SourceTables, "FR") == {}
  {
    FranceTargets();
    OwnersNotForeignC();
  }

  lemma DiegoGarciaHits()
    ensures HitsIn(SourceTables, "DG") == {"IO"}
  {
    DiegoGarciaTargets();
    DiegoGarciaNotForeign();
  }

  lemma ChagosHits()
    ensures HitsIn(SourceTables, "IO") == {"GB"}
  {
    ChagosTargets();
    ChagosForeign();
  }

  lemma BritainHits()
    ensures HitsIn(SourceTables, "GB") == {}
  {
    BritainTargets();
    ChagosForeign();
    ForeignTargetsNotForeign();
  }

  /** France has no other alias. */
  lemma AliasesOfFrance(db: Database)
    requires WellFormed(SourceTables, db) && "FR" in db.countries
    ensures AliasSet(SourceTables, db, "FR") == {"FR"}
  {
    FranceHits();
    AliasesWithoutHits(SourceTables, db, "FR");
  }

  lemma AliasesOfBritain(db: Database)
    requires WellFormed(SourceTables, db) && "GB" in db.countries
    ensures AliasSet(SourceTables, db, "GB") == {"GB"}
  {
    BritainHits();
    AliasesWithoutHits(SourceTables, db, "GB");
  }

  /** Diego Garcia is reserved for the Chagos, which the United Kingdom
      administers: its aliases are all three codes. */
  lemma AliasesOfDiegoGarcia(db: Database)
    requires WellFormed(SourceTables, db) && "IO" in db.countries && "GB" in db.countries
    ensures AliasSet(SourceTables, db, "DG") == {"DG", "IO", "GB"}
  {
    DiegoGarciaChain();
    AliasChain(SourceTables, db, "DG", "IO", "GB");
  }

  lemma DiegoGarciaChain()
    ensures "DG" in SourceTables.reserved
    ensures HitsIn(SourceTables, "DG") == {"IO"} && HitsIn(SourceTables, "IO") == {"GB"}
    ensures HitsIn(SourceTables, "GB") == {}
  {
    DiegoGarciaHits();
    ChagosHits();
    BritainHits();
  }
}
