# postal-address, modelled in Dafny

This project models the core of `postal-address`, a Python library that
normalises, validates and renders postal addresses. Its country and
subdivision data come from pycountry, the ISO 3166 database.

The model has three parts:

- `territory.dfy` (module `Territory`) models `postal_address/territory.py`.
  - It holds the six literal tables of that file: foreign territories, country aliases, subdivision-to-country promotions, subdivision aliases, reserved codes, and alias-to-subdivision.
  - It models the reverse mapping `generate_mapping` builds, and the supported-code sets.
  - It models `normalize_territory_code`, `territory_attachment`, `country_from_subdivision`, `default_subdivision_code`, `territory_children_codes`, `territory_parents`, `territory_parents_codes` and `country_aliases`.
  - pycountry is a `Database` value: a map of countries and a map of subdivisions, each subdivision with its country code, its parent code, its name and its type.
  - `WellFormed` states what the code relies on about the tables and the database together.
- `postal_address.dfy` (module `PostalAddress`) models `postal_address/address.py`.
  - `Address` is a class whose `fields` map the methods update in place.
  - It covers `__init__`, `__setitem__`, `__delitem__`, `normalize` (postal-code scrub, space collapsing, blank reset, line swap, code normalisation, default subdivision, parent metadata in strict and non-strict mode), `validate` and its three checks, `valid`, `empty` and `render`.
  - It also covers the module functions `subdivision_type_id` and `subdivision_metadata`.
  - Each method is proved equal to a specification function. Lemmas about those functions state what an address means once valid, normalised or rendered.
- `legacy_address.dfy` (module `LegacyAddress`) models the legacy root `address.py`: six optional fields, `render`, `validate`, `valid` and `empty`.

Support modules:

- `common.dfy` holds `Option`, `Result` and the Python exceptions the code raises.
- `text.dfy` holds the string functions the code calls: `strip`, `upper`, `split`, `" ".join`, and `str.split(sep)`.
- `territory_examples.dfy` checks the territory functions on the literal tables of `territory.py` against the repository's tests.

## Model

| member | source | states |
|---|---|---|
| Territory.SourceTablesValid | postal_address/territory.py:55-152 | The literal tables satisfy the shape the code relies on. Keys and targets are codes of the right length. No foreign-territory target is itself foreign, reserved or an alias. Alias targets are final. |
| Territory.SupportedCode | postal_address/territory.py:179-205 | A supported code is a well-formed code. It is a supported country code exactly when it has two letters, and a supported subdivision code exactly when it is longer. |
| Territory.SupportedCodesDisjoint | postal_address/territory.py:185-205 | Supported country codes and supported subdivision codes are disjoint. |
| Territory.SupportedExceptions | postal_address/territory.py:185-200 | On the literal tables, the reserved "FX" and the alias "UK" are supported country codes. The subdivision "FR-59" is not. |
| Territory.TerritoryAttachmentSpec | postal_address/territory.py:238-245 | Attaching twice is attaching once. A database country attaches to a database country. A code that is not a foreign territory attaches to itself. |
| Territory.NormalizeFails | postal_address/territory.py:212-235 | Normalisation fails exactly when the stripped, upper-cased code is not supported. It then raises ValueError carrying that cleaned code. |
| Territory.NormalizeResolves | postal_address/territory.py:212-235 | A normalised code is resolved. With alias resolution it is no subdivision alias and no promoted subdivision. With top-country resolution it is no foreign territory. |
| Territory.RenormalizeResolved | postal_address/territory.py:212-235 | A code that is already resolved under the same flags normalises to itself. |
| Territory.NormalizeIdempotent | postal_address/territory.py:212-235 | Normalising a normalised code gives the same result. |
| Territory.CountryFromSubdivisionDefined | postal_address/territory.py:248-267 | `country_from_subdivision` gives None exactly on unsupported codes. Otherwise it gives a supported country code. |
| Territory.CountryFromSubdivisionCases | postal_address/territory.py:248-267 | A country code is its own country. A promoted subdivision gives its table entry. Any other database subdivision gives its pycountry country. |
| Territory.AddStraight | postal_address/territory.py:164-171 | Indexing a table by its keys adds each target to its key's entry and changes no other entry. |
| Territory.AddReversed | postal_address/territory.py:160-162 | Indexing a table by its targets adds each key to its target's entry and changes no other entry. |
| Territory.AddReversedCountries | postal_address/territory.py:280-284 | Indexing the subdivision promotions adds each subdivision to its target's entry when the target is a two-letter code, skips the others, and changes no other entry. |
| Territory.GenerateMapping | postal_address/territory.py:154-175 | The loop builds exactly the declarative reverse index of all five tables. |
| Territory.DefaultSubdivisionCode | postal_address/territory.py:270-293 | There is a default subdivision exactly when the country has one candidate, and the default is that candidate. The candidates are the subdivisions promoted to that two-letter code and the subdivision the code denotes in COUNTRY_ALIAS_TO_SUBDIVISION. |
| Territory.TerritoryChildrenCodes | postal_address/territory.py:296-323 | The method returns the declarative children set. That set is the country's subdivisions for a country, or every descendant for a subdivision, plus the code itself when asked. An unsupported code raises ValueError. |
| Territory.ChildrenSpecOf | postal_address/territory.py:296-323 | The children set equals the subdivisions of the normalised country, or the descendants of the normalised subdivision, with the code added exactly when `include_self` is set. |
| Territory.SearchChildren | postal_address/territory.py:313-319 | The per-level search over the direct children of a subdivision returns exactly its descendants at every depth (`Descendants`), not only the direct children. |
| Territory.SearchChild | postal_address/territory.py:318-319 | The recursive call on one direct child, with `include_self`, returns that child and all of its descendants. |
| Territory.ChildrenSelf | postal_address/territory.py:320-321 | The normalised code is among its children exactly when `include_self` is set. |
| Territory.DescendantsInCountry | postal_address/territory.py:296-323 | Every descendant of a subdivision belongs to that subdivision's country. |
| Territory.TerritoryParents | postal_address/territory.py:326-359 | The method returns the declarative chain: alias applied first, then the entity self-first up its parent chain, then the country when asked. |
| Territory.ParentsWithCountry | postal_address/territory.py:326-359 | Asking for the country appends exactly one entry after the chain without it. Errors are the same either way. |
| Territory.ParentsOfCountry | postal_address/territory.py:337-344 | A country's parents are the country alone when asked, and nothing otherwise. |
| Territory.ParentsOfSubdivision | postal_address/territory.py:346-359 | A subdivision's parents start with the subdivision and climb the parent chain, and end with its country when asked. |
| Territory.TerritoryParentsCodes | postal_address/territory.py:362-373 | The codes are those of `territory_parents`, in order. A territory missing from pycountry (a None in the list) raises AttributeError when its `__module__` is read. |
| Territory.ParentsCodesOfCountry | postal_address/territory.py:362-373 | A country gives its own code when asked, and nothing otherwise. A supported country code missing from pycountry raises AttributeError. Reserved and country-alias codes cannot reach this case, because normalisation rewrites them to database countries. The case is reached by a COUNTRY_ALIAS_TO_SUBDIVISION key that is not spelled exactly, such as "ic" or " TA". The raw-spelling lookup at territory.py:338 misses it, normalisation then gives the supported "IC" or "TA", and pycountry has no such country. |
| Territory.ParentsCodesOfSubdivision | postal_address/territory.py:362-373 | A subdivision gives the codes of its parent chain, then its country code when asked. |
| Territory.TerritoryCodes | postal_address/territory.py:366-373 | The loop yields the code of each country or subdivision object in order, `alpha_2` for a country and `code` for a subdivision. A None in the list raises AttributeError when its `__module__` is read, and stops the loop. |
| Territory.CountryAliases | postal_address/territory.py:376-406 | The recursive search returns the declarative alias set. An unsupported code raises AttributeError, since the subdivision lookup gives None. |
| Territory.CountryAliasesSelf | postal_address/territory.py:384-386 | A supported country code is among its own aliases. |
| Territory.AliasesAreCountries | postal_address/territory.py:376-406 | Every alias of a supported code is a supported country code. |
| Territory.CountryFromSubdivisionInAliases | postal_address/territory.py:388-400 | The country of a supported code is among its aliases. |
| Territory.AttachedCountryInAliases | postal_address/territory.py:402-404 | The country a code attaches to is among its aliases. |
| Territory.NormalizedCountryInAliases | postal_address/territory.py:402-404 | A country code's normalised form is among its aliases. |
| Territory.AliasChain | postal_address/territory.py:402-406 | Three codes that each reach only the next through the reverse mapping have exactly those three codes as aliases of the first. |
| Territory.HuntAliases | postal_address/territory.py:402-404 | The alias hunt adds, to the aliases found so far, the aliases of every hit of the code in the reverse mapping. Nothing else is added. |
| Territory.ReverseMappingGet | postal_address/territory.py:402 | `REVERSE_MAPPING.get(code, [])` is the set of hits of the code: the subdivisions promoted to it, and what the reserved, country-alias, subdivision-alias and foreign-territory tables map it to. It is empty when the code is not a key. |
| Territory.HitAliases | postal_address/territory.py:403-404 | Each hit is itself a supported territory code, and the recursive call on it returns exactly its alias set. |
| TerritoryExamples.NormalizeGreece | postal_address/tests/test_territory.py:240 | "EL" normalises to "GR" on the literal tables. |
| TerritoryExamples.NormalizeMetropolitanFrance | postal_address/tests/test_territory.py:241 | The reserved "FX" normalises to "FR". |
| TerritoryExamples.NormalizeBonaireMunicipality | postal_address/tests/test_territory.py:247-259 | The subdivision alias "NL-BQ1" normalises to "BQ-BO", with or without top-country resolution. |
| TerritoryExamples.NormalizeTaiwan | postal_address/tests/test_territory.py:242 | The promoted subdivision "CN-TW" normalises to "TW". |
| TerritoryExamples.NormalizeGuadeloupe | postal_address/tests/test_territory.py:245-256 | "FR-GP" normalises to "GP", and to "FR" with top-country resolution. |
| TerritoryExamples.NormalizeBonaire | postal_address/tests/test_territory.py:244-250 | "BQ" attaches to "NL" with top-country resolution and stays "BQ" without. |
| TerritoryExamples.NormalizeVirginIslands | postal_address/tests/test_territory.py:253 | "VI" attaches to "US". |
| TerritoryExamples.DefaultCandidatesGuam | postal_address/tests/test_territory.py:99 | Guam has the single default subdivision "US-GU". |
| TerritoryExamples.DefaultCandidatesFrance | postal_address/territory.py:270-293 | France has no default subdivision. |
| TerritoryExamples.DefaultCandidatesSvalbard | postal_address/tests/test_territory.py:100 | Svalbard has two candidates, "NO-21" and "NO-22", so it has no default. |
| TerritoryExamples.AliasesOfFrance | postal_address/tests/test_territory.py:161 | The aliases of "FR" are {"FR"}. |
| TerritoryExamples.AliasesOfBritain | postal_address/tests/test_territory.py:170 | The aliases of "GB" are {"GB"}. |
| TerritoryExamples.AliasesOfDiegoGarcia | postal_address/tests/test_territory.py:158 | The aliases of "DG" are {"DG", "IO", "GB"}. |
| PostalAddress.SubdivisionTypeIdSpec | postal_address/address.py:576-694 | The type id is "city" exactly when a word of the type is "city" or "municipality". Otherwise it is the type's slug. |
| PostalAddress.WordTypeId | postal_address/address.py:687-694 | A type that is a single slug word, with a length other than that of "city" or "municipality", has its lower-cased self as slug and as type id. |
| PostalAddress.BackslashKeepsWord | postal_address/address.py:687-694 | A backslash does not break a slug word, so the type "City\Town" has the type id "city\town", not "city". |
| PostalAddress.SubdivisionMetadata | postal_address/address.py:697-720 | The metadata are the subdivision, its code, its name and its type, under the type id and its "_area_code", "_name" and "_type_name" ids. The assertion fails exactly when every id outside the whitelist is a base field. |
| PostalAddress.SubdivisionMetadataSucceeds | postal_address/address.py:712-718 | The assertion never fails, since an "_area_code" id is never a base field. |
| PostalAddress.TypeIdCollision | postal_address/address.py:712-718 | A subdivision of type "line1" passes the assertion, but merging its metadata puts the subdivision object in `line1`. |
| PostalAddress.CheckedMetadataSpec | postal_address/address.py:712-718 | The corrected check fails exactly on a type id that is a non-whitelisted base field. When it passes, only whitelisted base fields are written, and it agrees with the check as written. |
| PostalAddress.MetadataEntriesSafe | postal_address/address.py:697-720 | For a type id that is not a base field, the only base field the metadata can write is the city name, and it writes a string. |
| PostalAddress.ScrubPostalCodeSpec | postal_address/address.py:298-307 | The scrubbed code holds only letters, digits, spaces and hyphens. Every hyphen sits between two alphanumerics. The letters and digits are those of the upper-cased input, in order. |
| PostalAddress.ScrubPostalCodeRuns | postal_address/address.py:298-307 | Split the kept characters into alternating runs of alphanumerics and separators. A separator run holding a hyphen becomes a single "-", and a run of spaces is kept. A leading or trailing hyphen run is dropped. |
| PostalAddress.HyphenJoin | postal_address/address.py:302-305 | Two alphanumeric words around any run of spaces and hyphens that holds a hyphen scrub to the two words joined by one "-". |
| PostalAddress.ScrubSlashes | postal_address/tests/test_address.py:491-497 | "J/PPB1>6/_" scrubs to "JPPB16". |
| PostalAddress.ScrubSpacedHyphen | postal_address/address.py:302-305 | "75 - 008" scrubs to "75-008". |
| Text.CollapseSpacesSpec | postal_address/address.py:309-313 | `" ".join(s.split())` leaves single interior spaces and keeps every visible character in order. It is empty exactly when `s` is blank, and collapsing again changes nothing. |
| PostalAddress.Address.Create | postal_address/address.py:117-137 | An unknown keyword raises KeyError, before a non-string value raises TypeError. Otherwise the new address holds the normalised fields and the normalisation's failure. |
| PostalAddress.Address.Load | postal_address/address.py:132-134 | Setting the keyword arguments one by one gives the fields with each argument stored, a later one winning over an earlier one, and the fields stay well formed. If any value is neither a string nor None, the loop raises TypeError. |
| PostalAddress.Address.SetItem | postal_address/address.py:188-199 | A non-string key or value raises TypeError, and a non-base key raises KeyError, with the fields unchanged. Otherwise exactly that field changes. |
| PostalAddress.Address.DelItem | postal_address/address.py:201-206 | A base field is reset to None. Another present field is removed. A missing key raises KeyError and changes nothing. |
| PostalAddress.Address.ScrubPostalField | postal_address/address.py:298-307 | Replaces a set postal code by its scrubbed form and leaves the rest alone. |
| PostalAddress.Address.CollapseFields | postal_address/address.py:309-313 | Collapses the spaces of every string base field. Derived fields keep their values, spaces included, because `__setitem__` raises KeyError for them and the loop suppresses it. Non-string values are left alone. |
| PostalAddress.Address.ResetBlanks | postal_address/address.py:315-318 | Resets every empty base field to None and removes every empty derived field. |
| PostalAddress.Address.SwapLines | postal_address/address.py:320-322 | Swaps the two lines exactly when line2 is set and line1 is not. |
| PostalAddress.Address.NormalizeCodes | postal_address/address.py:324-335 | Replaces each set territory code by its normalised form, or None when it is unsupported. |
| PostalAddress.Address.NormalizeCode | postal_address/address.py:326-335 | For one territory field, a set code becomes its normalised form without alias resolution, or None when it is unsupported. An unset field and every other field are unchanged. |
| PostalAddress.CodeValueSpec | postal_address/address.py:324-335 | A code becomes None exactly when it is unsupported, and otherwise its normalised form. An unset code stays as it is, and normalising twice is normalising once. |
| PostalAddress.Address.AdoptDefault | postal_address/address.py:337-343 | With a country and no subdivision, adopts the default subdivision and clears the country. |
| PostalAddress.GatherMetadata | postal_address/address.py:354-357 | The loop merges the metadata of each parent into the dict in order, a later parent's keys overwriting an earlier one's. A None parent raises AttributeError. |
| PostalAddress.ParentMetadataOf | postal_address/address.py:347-357 | The derived values of a subdivision code are `country_code` from `country_from_subdivision`, then the metadata of the subdivision and each ancestor. Errors of `territory_parents` propagate. |
| PostalAddress.ParentMetadataSafe | postal_address/address.py:347-357 | When no database type id is a base field, the derived values keep `country_code` first, holding the country of the subdivision. Among the base fields they write only `city_name`, and with a string. |
| PostalAddress.Address.MergeMetadata | postal_address/address.py:345-395 | Merges the subdivision's parent metadata under the strict or non-strict rule of the source. |
| PostalAddress.Address.Normalize | postal_address/address.py:283-395 | The fields after normalising, and the failure if any, are those of the specification composed of the steps in source order. |
| PostalAddress.NormalizeLines | postal_address/address.py:283-395 | After normalising, line1, line2 and the postal code are tidy, and line2 is set only when line1 is. |
| PostalAddress.NormalizeDerivesCountry | postal_address/address.py:345-395 | A successful normalisation with a subdivision sets the country to the subdivision's country. |
| PostalAddress.NormalizeAdoptsDefault | postal_address/address.py:337-395 | A country with a single default subdivision and no subdivision given ends up with that subdivision and its country. |
| PostalAddress.NormalizeModes | postal_address/address.py:364-393 | Non-strict normalisation never reports an inconsistency. Strict and non-strict agree whenever strict succeeds. A strict failure names one base field against `subdivision_code`. |
| PostalAddress.Address.CheckStrict | postal_address/address.py:364-393 | The strict loop checks the derived values in order. It fails with AssertionError on a blank value. It raises InvalidAddress naming the pair of the first field whose set base value is neither the new value nor, for `country_code`, the database country of the subdivision. A set `country_code` with the subdivision missing from pycountry raises AttributeError. With `StrictCheckPasses`, it passes exactly when every derived value agrees. |
| PostalAddress.StrictCheckPasses | postal_address/address.py:364-393 | The strict check passes exactly when every parent metadata entry agrees with the current field or may replace it. |
| PostalAddress.Address.CheckRequiredFields | postal_address/address.py:414-423 | Returns the required fields that are unset. |
| PostalAddress.Address.CheckInvalidFields | postal_address/address.py:425-440 | Reports the country code when it is not already required and is not a pycountry country. Reports a set subdivision code that is not a pycountry subdivision. Each is reported with its current value. |
| PostalAddress.Address.CheckInconsistentFields | postal_address/address.py:442-458 | Returns the country/subdivision pair when both are valid but the subdivision belongs to another country. |
| PostalAddress.Address.Validate | postal_address/address.py:397-412 | Raises InvalidAddress with the three reports exactly as the specification composes them. |
| PostalAddress.ValidMeans | postal_address/address.py:397-482 | An address is valid exactly when its required fields are set, its country is in pycountry, and a set subdivision is in pycountry and belongs to that country. |
| PostalAddress.ValidateReports | postal_address/address.py:414-458 | Every reported field is reported for a reason: required fields are unset, invalid fields hold their current value, and an inconsistency pairs two fields that are neither missing nor invalid. |
| PostalAddress.Address.Valid | postal_address/address.py:475-482 | True exactly when `validate` raises nothing. |
| PostalAddress.Address.Empty | postal_address/address.py:484-486 | True exactly when no field holds a truthy value. |
| PostalAddress.EmptyNotValid | postal_address/address.py:414-423 | An empty address reports exactly the four required fields as missing. |
| PostalAddress.Address.ComposeThirdLine | postal_address/address.py:245-260 | Builds the "postal - city, state" line. A non-string state name raises TypeError. |
| PostalAddress.PostalCodeAlone | postal_address/address.py:245-260 | A postal code without city or state renders as the code followed by " - ". |
| PostalAddress.Address.Render | postal_address/address.py:224-281 | The block is `RenderLines` joined by the separator: line1, line2 when set, the third line when not empty, the subdivision name when shown, then the country name. The names are looked up without regard to case, as pycountry's `get` does. A non-string `state_name` raises TypeError. |
| PostalAddress.RenderIgnoresCase | postal_address/address.py:492-525 | Storing the country and subdivision codes in lower case changes neither the country name, nor the subdivision name, nor the rendered lines. |
| PostalAddress.RenderLinesShape | postal_address/address.py:224-281 | No rendered line is empty. A set line1 comes first, and a non-empty country name comes last. |
| PostalAddress.SubdivisionLine | postal_address/address.py:262-274 | The subdivision-name line is present exactly when the name is set and differs from the city, state and country names. It then sits just before the country line, and the other lines are those rendered without a subdivision. |
| PostalAddress.RenderSplits | postal_address/address.py:281 | Splitting the block on a one-character separator absent from the lines gives the lines back. |
| LegacyAddress.Address.constructor | address.py:31-38 | The new address holds the six given fields. |
| LegacyAddress.Address.Render | address.py:51-81 | The block is line1, line2, "zip - city, state" and the country, each when set, joined by the separator. |
| LegacyAddress.Address.Validate | address.py:83-88 | Raises ValueError naming the first unset field among line1, zip_code, city and country. |
| LegacyAddress.ValidMeans | address.py:83-97 | Valid exactly when line1, zip_code, city and country are all set. |
| LegacyAddress.FirstUnsetIsFirst | address.py:83-88 | The named field is unset and every field before it is set. None is named exactly when all are set. |
| LegacyAddress.Address.Valid | address.py:90-97 | True exactly when `validate` raises nothing. |
| LegacyAddress.Address.Empty | address.py:99-104 | True exactly when all six fields are unset. |
| LegacyAddress.RenderEmpty | address.py:51-104 | The block is empty exactly when the address is empty. |
| LegacyAddress.EmptyNotValid | address.py:83-88 | An empty address fails validation on line1. |

## Left out

- Territory.CountryFromSubdivision: pycountry's `countries.get` and `subdivisions.get` ignore case. The model looks codes up exactly, so "fr-75" gives None here but "FR" in `country_from_subdivision`.
  - Territory.CountryFromSubdivisionDefined: "None exactly on unsupported codes" holds for the exact lookup only. In Python a lower-case database code such as "fr-75" is unsupported but still gives "FR".
  - Territory.CountryFromSubdivisionCases: its last case, the pycountry country, is stated for the exact lookup, so it does not cover a lower-case code either.
- Territory.CountryAliases: for the same reason, "fr-75" raises AttributeError here, but gives {"FR"} in `country_aliases`.
- PostalAddress.InvalidOf: a lower-case country code such as "fr" is reported invalid here, but passes `check_invalid_fields`. The case-insensitive lookup is not modelled. After normalisation every code is upper-case. A code set afterwards through `__setitem__` or attribute assignment is not normalised again, so a lower-case code can still reach `validate`.
- PostalAddress.Address.Validate: inherits the exact lookup of PostalAddress.InvalidOf.
- PostalAddress.CountryName: looks the stored code up upper-cased, as pycountry's case-insensitive `get` does, because every database code is upper-case. The folding is ASCII only (`Text.Upper`). Python's `str.lower` in pycountry also folds other characters, such as the Kelvin sign to "k".
- PostalAddress.SubdivisionName: the same ASCII-only folding of the stored subdivision code.
- Territory.NormalizeTerritoryCode: upper-casing is ASCII only (`Text.Upper`). Python's `str.upper` also maps other letters, such as "ß" to "SS".
- PostalAddress.ScrubPostalCode: the same ASCII upper-casing. A "ß" in a postal code is dropped here, but becomes "SS" in Python.
- LegacyAddress.Address: fields are `Option<string>`. The source stores any value, and `separator.join` would raise TypeError on a non-string; that TypeError is not modelled.
- Territory.TerritoryParentsCodes: `territory_parents_codes` is a generator. The model returns the whole list or the error, so it does not capture that the codes before a failing entity are produced before the error.
- PostalAddress.InvalidAddress: the exception's message, `extra_msg` and `__str__` are not modelled. The model keeps only the three reports: required, invalid and inconsistent.
- Territory.Known: all territory operations require `WellFormed`, which includes `Known`. `Known` asks four things. Every target of RESERVED_COUNTRY_CODES and COUNTRY_ALIASES is a database country. Every key and every target of FOREIGN_TERRITORIES_MAPPING is a database country. Every key of SUBDIVISION_COUNTRIES is a parentless database subdivision, and its target is a database country. Every key and every target of SUBDIVISION_ALIASES is a parentless database subdivision. Nothing is asked of the COUNTRY_ALIAS_TO_SUBDIVISION targets.
  - Territory.TerritoryChildrenCodes: because of `Known`, renormalising each child (territory.py:316-320) leaves it unchanged. In pycountry every key of those two tables is a top-level subdivision (e.g. "CN-TW", "FR-GP", "NL-BQ1"), so no child is renamed.
  - Territory.CountryAliases: relies on the same assumption when it follows the reverse mapping from a subdivision.
- PostalAddress.SafeTypes: the lemmas about `Address.Normalize` (NormalizeLines, NormalizeDerivesCountry, NormalizeAdoptsDefault) assume that no subdivision type id of the database is a base field id. `Address.Normalize` itself does not assume it. No pycountry subdivision type slugifies to "line1", "line2", "postal_code", "city_name", "country_code" or "subdivision_code". The Findings row below shows what the check in `subdivision_metadata` lets through otherwise.
- PostalAddress.Address.Normalize: requires that the fields hold every base field with a string or None value. `__setitem__` and the keyword loop of the constructor keep that, and it is proved. After normalisation it holds only under `SafeTypes` (see NormalizeLines). `Address.Validate`, `Address.Valid` and `Address.Render` require it, so they cannot be applied to the state `TypeIdCollision` exhibits, where `line1` holds a subdivision object. In Python, rendering that state raises TypeError in the join; the model does not capture this.
- `random_address`: uses randomness and the faker library.
- Caches: the `cached(LRI())` decorators of territory.py only memoise, so they are not modelled.
- Dunder methods and properties: `__repr__`, `__str__`, `__getattr__`, `__setattr__`, `__getitem__`, `__iter__`, `keys`, `values`, `items`, `__len__` and `__bool__` are not modelled. The fields are read directly.
- pycountry I/O: loading the ISO 3166 data is a `Database` value given as a parameter.
- PostalAddress.Slugify: boltons' `slugify` breaks words on runs of the characters of its pattern `'[' + string.punctuation + string.whitespace + ']+'`. That is every printable ASCII punctuation mark except the backslash, which the escaped `\]` leaves out of the class, plus ASCII white space. It lower-cases every letter; the model lower-cases ASCII letters only.

## Findings

| source | as written | input that shows it | evidently intended | confidence | as-written member | corrected member |
|---|---|---|---|---|---|---|
| postal_address/address.py:712-718 | The assertion checks that the metadata ids outside the whitelist are *not all* base fields. The "_area_code" id is never a base field, so the assertion never fails. | A subdivision whose type is "line1": its type id is "line1", the assertion passes, and the merge puts the subdivision object into the `line1` base field. | No metadata id outside the whitelist is a base field, i.e. the ids outside the whitelist are disjoint from the base fields. | not executed; no pycountry subdivision type has such a slug, so real data never reaches it | PostalAddress.TypeIdCollision | PostalAddress.CheckedMetadataSpec |

The model keeps the assertion as written inside `Address.Normalize`. `PostalAddress.CheckedMetadataSpec` proves that the corrected check and the written one agree whenever the corrected one passes, which is the case for every database satisfying `SafeTypes`.
