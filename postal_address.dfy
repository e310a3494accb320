/**
 * The `Address` record of postal_address/address.py: a store of named
 * fields that only lets the six base fields be set, normalizes them against
 * the territory engine, validates them all at once and renders them as a
 * postal block; with the subdivision helpers `subdivision_type_id` and
 * `subdivision_metadata`.
 *
 * The field store `_fields` is the map `fields` of the class `Address`;
 * Python values are `Value`s. Every step of `normalize` is a function on
 * the store, and the methods are proved to compute them.
 */
module PostalAddress {
  import opened Common
  import opened Text
  import opened Territory

  // ----------------------------------------------------------------------
  // Values and fields
  // ----------------------------------------------------------------------

  /** The Python values a field can hold: `None`, a `str`, a subdivision
      object (subdivision metadata stores the subdivision itself), or any
      other object, such as a number. */
  datatype Value =
    | Null
    | Str(s: string)
    | Entity(subdivision: Subdivision)
    | Number(n: int)

  /** Python truthiness. */
  predicate Truthy(v: Value)
  {
    match v
    case Null => false
    case Str(s) => s != ""
    case Entity(_) => true
    case Number(n) => n != 0
  }

  /** What `__setitem__` accepts: a `str` or `None`. */
  predicate IsText(v: Value)
  {
    v.Null? || v.Str?
  }

  function OptionValue(o: Option<string>): Value
  {
    match o
    case None => Null
    case Some(s) => Str(s)
  }

  type Fields = map<string, Value>

  /** `BASE_FIELD_IDS`: the fields a user may set. */
  const BaseFieldIds: set<string> :=
    {"line1", "line2", "postal_code", "city_name", "country_code", "subdivision_code"}

  /** `SUBDIVISION_METADATA_WHITELIST`: metadata allowed to replace a base
      field. */
  const MetadataWhitelist: set<string> := {"city_name"}

  /** `REQUIRED_FIELDS`. */
  const RequiredFieldIds: set<string> := {"line1", "postal_code", "city_name", "country_code"}

  predicate Holds(f: Fields, k: string)
  {
    k in f && IsText(f[k])
  }

  /** The store's invariant: every base field is present and holds a `str`
      or `None`. */
  predicate Stored(f: Fields)
  {
    && Holds(f, "line1") && Holds(f, "line2") && Holds(f, "postal_code")
    && Holds(f, "city_name") && Holds(f, "country_code") && Holds(f, "subdivision_code")
  }

  /** Setting a base field to a `str` or `None` keeps the invariant. */
  lemma StoredUpdate(f: Fields, k: string, v: Value)
    requires Stored(f) && k in BaseFieldIds && IsText(v)
    ensures Stored(f[k := v])
  {
  }

  lemma StoredBase(f: Fields)
    requires Stored(f)
    ensures forall k | k in BaseFieldIds :: k in f && IsText(f[k])
  {
  }

  /** `Address.__getattr__` on a field that may be missing. */
  function Get(f: Fields, k: string): Value
  {
    if k in f then f[k] else Null
  }

  // ----------------------------------------------------------------------
  // Subdivision type ids (`subdivision_type_id`)
  // ----------------------------------------------------------------------

  /** The separators of boltons' `slugify`: the characters of its pattern
      `'[' + string.punctuation + string.whitespace + ']+'`, that is the
      printable ASCII non-alphanumerics and space, tab through carriage
      return. The backslash is not among them: inside the character class,
      the `\]` of `string.punctuation` is an escaped bracket. */
  predicate IsSlugBreak(c: char)
  {
    || ('!' <= c <= '/') || (':' <= c <= '@') || c == '[' || (']' <= c <= '`') || ('{' <= c <= '~')
    || c == ' ' || ('\t' <= c <= '\r')
  }

  /** boltons' `slugify(text)`: the words between punctuation and
      whitespace, joined by underscores and lower-cased; a text made of
      separators only gives a lone underscore. */
  function Slugify(text: string): string
  {
    if text == "" then ""
    else
      var joined := Join("_", Tokens(text, IsSlugBreak));
      Lower(if joined == "" then "_" else joined)
  }

  /** `subdivision_type_id`: the slug of the type, or "city" when one of
      its underscore-separated parts is "city" or "municipality". */
  function SubdivisionTypeId(kind: string): string
  {
    var slug := Slugify(kind);
    var parts := SplitOn(slug, '_');
    if "city" in parts || "municipality" in parts then "city" else slug
  }

  /** The words of a type, lower-cased. */
  function TypeWords(kind: string): seq<string>
  {
    var ws := Tokens(kind, IsSlugBreak);
    seq(|ws|, k requires 0 <= k < |ws| => Lower(ws[k]))
  }

  lemma SlugParts(kind: string)
    requires TypeWords(kind) != []
    ensures SplitOn(Slugify(kind), '_') == TypeWords(kind)
  {
    var ws := Tokens(kind, IsSlugBreak);
    assert IsSlugBreak('_');
    LowerJoin(ws, '_');
    var lws := TypeWords(kind);
    forall k | 0 <= k < |lws|
      ensures Without(lws[k], '_')
    {
      assert forall i | 0 <= i < |ws[k]| :: !IsSlugBreak(ws[k][i]);
    }
    SplitJoin(lws, '_');
  }

  lemma SlugWithoutWords(kind: string)
    requires TypeWords(kind) == []
    ensures SplitOn(Slugify(kind), '_') == [""] || SplitOn(Slugify(kind), '_') == ["", ""]
  {
    if kind != "" {
      assert Lower("_") == "_";
      assert UntilChar("_", '_') == 0;
      assert UntilChar("", '_') == 0;
      assert SplitOn("", '_') == [""];
    } else {
      assert UntilChar("", '_') == 0;
    }
  }

  /** A city part of the slug, or the slug "city" itself, which is one. */
  lemma TypeIdParts(kind: string)
    ensures var parts := SplitOn(Slugify(kind), '_');
      SubdivisionTypeId(kind) == "city" <==> "city" in parts || "municipality" in parts
  {
    if Slugify(kind) == "city" {
      assert UntilChar("city", '_') == 4;
    }
  }

  lemma PartsWords(kind: string)
    ensures var parts := SplitOn(Slugify(kind), '_');
      ("city" in parts || "municipality" in parts) <==>
      exists k | 0 <= k < |TypeWords(kind)| :: TypeWords(kind)[k] in {"city", "municipality"}
  {
    if TypeWords(kind) == [] {
      SlugWithoutWords(kind);
    } else {
      SlugParts(kind);
    }
  }

  /** A type is a city exactly when one of its words is "city" or
      "municipality" in any case; any other type keeps its slug. */
  lemma SubdivisionTypeIdSpec(kind: string)
    ensures SubdivisionTypeId(kind) == "city" <==>
      exists k | 0 <= k < |TypeWords(kind)| :: TypeWords(kind)[k] in {"city", "municipality"}
    ensures SubdivisionTypeId(kind) != "city" ==> SubdivisionTypeId(kind) == Slugify(kind)
  {
    TypeIdParts(kind);
    PartsWords(kind);
  }

  // ----------------------------------------------------------------------
  // Ordered dictionaries
  // ----------------------------------------------------------------------

  /** A Python dict with its insertion order. */
  type Ordered = seq<(string, Value)>

  function KeySeq(d: Ordered): seq<string>
  {
    seq(|d|, i requires 0 <= i < |d| => d[i].0)
  }

  /** `d[k] = v`: an existing key keeps its place and takes the new
      value; a new key goes last; nothing else moves. */
  function Put(d: Ordered, k: string, v: Value): (r: Ordered)
    ensures |r| == |d| || |r| == |d| + 1
    ensures forall i | 0 <= i < |r| :: (i < |d| && r[i] == d[i]) || r[i] == (k, v)
    ensures forall i | 0 <= i < |d| && d[i].0 != k :: r[i] == d[i]
    ensures (k, v) in r
    decreases |d|
  {
    if d == [] then [(k, v)]
    else if d[0].0 == k then [(k, v)] + d[1..]
    else [d[0]] + Put(d[1..], k, v)
  }

  /** `d.update(e)`. */
  function PutAll(d: Ordered, e: Ordered): Ordered
    decreases |e|
  {
    if e == [] then d else PutAll(Put(d, e[0].0, e[0].1), e[1..])
  }

  /** `fields.update(d)`: the entries of `d` written in turn. */
  function Overlay(f: Fields, d: Ordered): Fields
    decreases |d|
  {
    if d == [] then f else Overlay(f[d[0].0 := d[0].1], d[1..])
  }

  /** A dict never holds a key twice. */
  predicate UniqueKeys(d: Ordered)
  {
    forall i, j | 0 <= i < j < |d| :: d[i].0 != d[j].0
  }

  lemma UpdateSwap(m: Fields, k1: string, v1: Value, k2: string, v2: Value)
    requires k1 != k2
    ensures m[k1 := v1][k2 := v2] == m[k2 := v2][k1 := v1]
  {
  }

  lemma UpdateTwice(m: Fields, k: string, v1: Value, v2: Value)
    ensures m[k := v1][k := v2] == m[k := v2]
  {
  }

  /** Writing a key the dict does not hold commutes with the update. */
  lemma {:induction false} OverlayMissing(f: Fields, d: Ordered, k: string, v: Value)
    requires forall i | 0 <= i < |d| :: d[i].0 != k
    ensures Overlay(f[k := v], d) == Overlay(f, d)[k := v]
    decreases |d|
  {
    if d != [] {
      UpdateSwap(f, k, v, d[0].0, d[0].1);
      OverlayMissing(f[d[0].0 := d[0].1], d[1..], k, v);
    }
  }

  /** Setting a key of a dict and then updating the fields with it is
      updating the fields and then setting the key. */
  lemma {:induction false} OverlayPut(f: Fields, d: Ordered, k: string, v: Value)
    requires UniqueKeys(d)
    ensures Overlay(f, Put(d, k, v)) == Overlay(f, d)[k := v]
    decreases |d|
  {
    if d == [] {
    } else if d[0].0 == k {
      assert ([(k, v)] + d[1..])[1..] == d[1..];
      OverlayMissing(f, d[1..], k, v);
      OverlayMissing(f, d[1..], k, d[0].1);
      UpdateTwice(Overlay(f, d[1..]), k, d[0].1, v);
    } else {
      var rest := Put(d[1..], k, v);
      assert ([d[0]] + rest)[1..] == rest;
      OverlayPut(f[d[0].0 := d[0].1], d[1..], k, v);
    }
  }

  /** Setting a key keeps the keys unique. */
  lemma {:induction false} PutUnique(d: Ordered, k: string, v: Value)
    requires UniqueKeys(d)
    ensures UniqueKeys(Put(d, k, v))
    decreases |d|
  {
    if d != [] && d[0].0 == k {
      var r := [(k, v)] + d[1..];
      assert forall i | 0 <= i < |r| :: r[i].0 == d[i].0;
    } else if d != [] {
      var tail := d[1..];
      assert UniqueKeys(tail) && forall i | 0 <= i < |tail| :: tail[i].0 != d[0].0 by {
        assert forall i | 0 <= i < |tail| :: tail[i] == d[i + 1];
      }
      PutUnique(tail, k, v);
      PutAvoids(tail, k, v, d[0].0);
      ConsUnique(d[0], Put(tail, k, v));
    }
  }

  /** A key that neither `d` nor the new entry holds is not in the result. */
  lemma PutAvoids(d: Ordered, k: string, v: Value, x: string)
    requires x != k && forall i | 0 <= i < |d| :: d[i].0 != x
    ensures forall i | 0 <= i < |Put(d, k, v)| :: Put(d, k, v)[i].0 != x
  {
  }

  /** An entry whose key the rest lacks keeps the keys unique. */
  lemma ConsUnique(e: (string, Value), rest: Ordered)
    requires UniqueKeys(rest) && forall i | 0 <= i < |rest| :: rest[i].0 != e.0
    ensures UniqueKeys([e] + rest)
  {
    var r := [e] + rest;
    assert forall i | 0 < i < |r| :: r[i] == rest[i - 1];
  }

  /** Updating the fields with `d.update(e)` is updating them with `d`,
      then with `e`. */
  lemma {:induction false} OverlayPutAll(f: Fields, d: Ordered, e: Ordered)
    requires UniqueKeys(d)
    ensures Overlay(f, PutAll(d, e)) == Overlay(Overlay(f, d), e)
    decreases |e|
  {
    if e != [] {
      PutUnique(d, e[0].0, e[0].1);
      OverlayPutAll(f, Put(d, e[0].0, e[0].1), e[1..]);
      OverlayPut(f, d, e[0].0, e[0].1);
    }
  }

  // ----------------------------------------------------------------------
  // Subdivision metadata (`subdivision_metadata`)
  // ----------------------------------------------------------------------

  /** The metadata ids of a subdivision of type id `id`. */
  function MetadataIds(id: string): set<string>
  {
    {id, id + "_area_code", id + "_name", id + "_type_name"}
  }

  /** The metadata of a subdivision, in the order address.py lists
      them. */
  function MetadataEntries(sub: Subdivision): (d: Ordered)
    ensures var id := SubdivisionTypeId(sub.kind);
      KeySeq(d) == [id, id + "_area_code", id + "_name", id + "_type_name"]
  {
    var id := SubdivisionTypeId(sub.kind);
    [ (id, Entity(sub)),
      (id + "_area_code", Str(sub.code)),
      (id + "_name", Str(sub.name)),
      (id + "_type_name", Str(sub.kind))]
  }

  /** `subdivision_metadata`: the subdivision, its code, name and type,
      under ids derived from its type id. address.py asserts that the ids
      other than the whitelisted ones are not all base fields. */
  function SubdivisionMetadata(sub: Subdivision): (r: Result<Ordered, Error>)
    ensures r.Ok? ==> r.value == MetadataEntries(sub)
    ensures r.Err? <==> MetadataIds(SubdivisionTypeId(sub.kind)) - MetadataWhitelist <= BaseFieldIds
  {
    var id := SubdivisionTypeId(sub.kind);
    if MetadataIds(id) - MetadataWhitelist <= BaseFieldIds then Err(AssertionError)
    else Ok(MetadataEntries(sub))
  }

  /** No base field id ends in "_area_code". */
  lemma AreaCodeNotBase(id: string)
    ensures id + "_area_code" !in BaseFieldIds
  {
    var a := id + "_area_code";
    assert |a| >= 10 && a[|a| - 6] == 'a';
  }

  /** The assertion of `subdivision_metadata` never fails: the area-code id
      is never a base field. */
  lemma SubdivisionMetadataSucceeds(sub: Subdivision)
    ensures SubdivisionMetadata(sub).Ok?
  {
    var id := SubdivisionTypeId(sub.kind);
    AreaCodeNotBase(id);
    assert id + "_area_code" in MetadataIds(id) - MetadataWhitelist;
  }

  // ----------------------------------------------------------------------
  // Postal codes
  // ----------------------------------------------------------------------

  predicate IsAlnum(c: char) { 'A' <= c <= 'Z' || '0' <= c <= '9' }

  predicate IsPostalChar(c: char) { IsAlnum(c) || c == ' ' || c == '-' }

  predicate IsHyphen(c: char) { c == '-' }

  /** The letters and digits of `s`, in order. */
  function Alnums(s: string): string
    decreases |s|
  {
    if s == [] then "" else (if IsAlnum(s[0]) then [s[0]] else "") + Alnums(s[1..])
  }

  /** `re.sub(r"[^A-Z0-9 -]", "", s)`. */
  function KeepPostalChars(s: string): (r: string)
    ensures forall i | 0 <= i < |r| :: IsPostalChar(r[i])
    decreases |s|
  {
    if s == [] then "" else (if IsPostalChar(s[0]) then [s[0]] else "") + KeepPostalChars(s[1..])
  }

  /** Length of the leading run of characters other than letters and
      digits. */
  function BreakRun(s: string): (n: nat)
    ensures n <= |s|
    ensures forall i | 0 <= i < n :: !IsAlnum(s[i])
    ensures n < |s| ==> IsAlnum(s[n])
    ensures s != [] && !IsAlnum(s[0]) ==> n > 0
    decreases |s|
  {
    if s == [] || IsAlnum(s[0]) then 0 else 1 + BreakRun(s[1..])
  }

  /** `re.sub(r"[^A-Z0-9]*-+[^A-Z0-9]*", "-", s)` on a string of letters,
      digits, spaces and hyphens: every run of spaces and hyphens that holds
      a hyphen becomes a single hyphen. */
  function MergeDashes(s: string): string
    decreases |s|
  {
    if s == [] then ""
    else if IsAlnum(s[0]) then [s[0]] + MergeDashes(s[1..])
    else
      var n := BreakRun(s);
      (if '-' in s[..n] then "-" else s[..n]) + MergeDashes(s[n..])
  }

  /** The postal-code scrub of `normalize`: upper-case, keep letters,
      digits, spaces and hyphens, merge hyphenated runs, strip hyphens. */
  function ScrubPostalCode(s: string): string
  {
    StripWhere(MergeDashes(KeepPostalChars(Upper(s))), IsHyphen)
  }

  /** Every hyphen stands between a letter or digit and another, or at an
      end of the string. */
  predicate Fenced(s: string)
  {
    forall i | 0 <= i < |s| && s[i] == '-' ::
      && (i == 0 || IsAlnum(s[i - 1]))
      && (i == |s| - 1 || IsAlnum(s[i + 1]))
  }

  predicate PostalChars(s: string)
  {
    forall i | 0 <= i < |s| :: IsPostalChar(s[i])
  }

  lemma {:induction false} AlnumsConcat(a: string, b: string)
    ensures Alnums(a + b) == Alnums(a) + Alnums(b)
    decreases |a|
  {
    if a == [] {
      assert a + b == b;
    } else {
      var head := if IsAlnum(a[0]) then [a[0]] else "";
      assert (a + b)[0] == a[0] && (a + b)[1..] == a[1..] + b;
      assert Alnums(a + b) == head + Alnums(a[1..] + b);
      AlnumsConcat(a[1..], b);
      assert head + (Alnums(a[1..]) + Alnums(b)) == (head + Alnums(a[1..])) + Alnums(b);
    }
  }

  lemma {:induction false} AlnumsNone(s: string)
    requires forall i | 0 <= i < |s| :: !IsAlnum(s[i])
    ensures Alnums(s) == ""
    decreases |s|
  {
    if s != [] {
      AlnumsNone(s[1..]);
    }
  }

  lemma {:induction false} KeepPostalCharsAlnums(s: string)
    ensures Alnums(KeepPostalChars(s)) == Alnums(s)
    decreases |s|
  {
    if s != [] {
      KeepPostalCharsAlnums(s[1..]);
      var head := if IsPostalChar(s[0]) then [s[0]] else "";
      AlnumsConcat(head, KeepPostalChars(s[1..]));
    }
  }

  lemma MergeDashesHead(s: string)
    requires s != [] && IsAlnum(s[0])
    ensures MergeDashes(s) != [] && MergeDashes(s)[0] == s[0]
  {
  }

  lemma PostalCharsConcat(a: string, b: string)
    requires PostalChars(a) && PostalChars(b)
    ensures PostalChars(a + b)
  {
    assert forall i | |a| <= i < |a + b| :: (a + b)[i] == b[i - |a|];
  }

  lemma FencedAfterAlnum(c: char, rest: string)
    requires IsAlnum(c) && Fenced(rest)
    ensures Fenced([c] + rest)
  {
    var r := [c] + rest;
    forall i | 0 <= i < |r| && r[i] == '-'
      ensures (i == 0 || IsAlnum(r[i - 1])) && (i == |r| - 1 || IsAlnum(r[i + 1]))
    {
      assert r[i] == rest[i - 1];
    }
  }

  /** A merged run followed by what starts with a letter or digit. */
  lemma FencedAfterRun(piece: string, rest: string)
    requires piece == "-" || forall i | 0 <= i < |piece| :: piece[i] != '-'
    requires rest == [] || IsAlnum(rest[0])
    requires Fenced(rest)
    ensures Fenced(piece + rest)
  {
    var r := piece + rest;
    forall i | 0 <= i < |r| && r[i] == '-'
      ensures (i == 0 || IsAlnum(r[i - 1])) && (i == |r| - 1 || IsAlnum(r[i + 1]))
    {
      if i < |piece| {
        assert piece[i] == '-';
        assert piece == "-";
      } else {
        assert r[i] == rest[i - |piece|];
      }
    }
  }

  /** Merging keeps the letters and digits. */
  lemma {:induction false} MergeDashesAlnums(s: string)
    ensures Alnums(MergeDashes(s)) == Alnums(s)
    decreases |s|
  {
    if s == [] {
    } else if IsAlnum(s[0]) {
      MergeDashesAlnums(s[1..]);
      AlnumsConcat([s[0]], MergeDashes(s[1..]));
    } else {
      var n := BreakRun(s);
      assert s == s[..n] + s[n..];
      var piece := if '-' in s[..n] then "-" else s[..n];
      MergeDashesAlnums(s[n..]);
      AlnumsConcat(piece, MergeDashes(s[n..]));
      AlnumsNone(piece);
      AlnumsConcat(s[..n], s[n..]);
      AlnumsNone(s[..n]);
    }
  }

  /** Merging keeps the string made of postal characters and fences every
      hyphen. */
  lemma {:induction false} MergeDashesFenced(s: string)
    requires PostalChars(s)
    ensures PostalChars(MergeDashes(s))
    ensures Fenced(MergeDashes(s))
    decreases |s|
  {
    if s == [] {
    } else if IsAlnum(s[0]) {
      MergeDashesFenced(s[1..]);
      FencedAfterAlnum(s[0], MergeDashes(s[1..]));
      PostalCharsConcat([s[0]], MergeDashes(s[1..]));
    } else {
      var n := BreakRun(s);
      var piece := if '-' in s[..n] then "-" else s[..n];
      MergeDashesFenced(s[n..]);
      if s[n..] != [] {
        MergeDashesHead(s[n..]);
      }
      FencedAfterRun(piece, MergeDashes(s[n..]));
      PostalCharsConcat(piece, MergeDashes(s[n..]));
    }
  }

  /** A suffix that does not start with a hyphen keeps the hyphens
      fenced. */
  lemma FencedSuffix(m: string, a: nat)
    requires a <= |m| && PostalChars(m) && Fenced(m) && (a < |m| ==> m[a] != '-')
    ensures PostalChars(m[a..]) && Fenced(m[a..])
  {
    var l := m[a..];
    forall i | 0 <= i < |l| && l[i] == '-'
      ensures (i == 0 || IsAlnum(l[i - 1])) && (i == |l| - 1 || IsAlnum(l[i + 1]))
    {
      assert l[i] == m[a + i];
      assert i != 0;
      assert l[i - 1] == m[a + i - 1];
      assert i < |l| - 1 ==> l[i + 1] == m[a + i + 1];
    }
  }

  /** Dropping the leading hyphens keeps the hyphens fenced and the
      letters and digits. */
  lemma DropLeadingHyphens(m: string)
    requires PostalChars(m) && Fenced(m)
    ensures var l := DropLeading(m, IsHyphen);
      && PostalChars(l) && Fenced(l) && (l != [] ==> l[0] != '-')
      && Alnums(l) == Alnums(m)
  {
    FencedSuffix(m, |m| - |DropLeading(m, IsHyphen)|);
    DropLeadingAlnums(m);
  }

  /** Dropping leading hyphens keeps the letters and digits. */
  lemma {:induction false} DropLeadingAlnums(m: string)
    ensures Alnums(DropLeading(m, IsHyphen)) == Alnums(m)
    decreases |m|
  {
    if m != [] && IsHyphen(m[0]) {
      DropLeadingAlnums(m[1..]);
      assert !IsAlnum(m[0]);
    }
  }

  /** A prefix that neither starts nor ends with a hyphen has every
      hyphen between two letters or digits. */
  lemma FencedPrefix(l: string, r: string)
    requires |r| <= |l| && r == l[..|r|] && PostalChars(l) && Fenced(l)
    requires l != [] ==> l[0] != '-'
    requires r != [] ==> r[|r| - 1] != '-'
    ensures PostalChars(r)
    ensures forall i | 0 <= i < |r| && r[i] == '-' ::
      0 < i < |r| - 1 && IsAlnum(r[i - 1]) && IsAlnum(r[i + 1])
  {
    forall i | 0 <= i < |r| && r[i] == '-'
      ensures 0 < i < |r| - 1 && IsAlnum(r[i - 1]) && IsAlnum(r[i + 1])
    {
      assert r[i] == l[i];
      assert r[i - 1] == l[i - 1] && r[i + 1] == l[i + 1];
    }
  }

  /** Dropping the trailing hyphens as well leaves every hyphen between two
      letters or digits. */
  lemma DropTrailingHyphens(l: string)
    requires PostalChars(l) && Fenced(l) && (l != [] ==> l[0] != '-')
    ensures var r := DropTrailing(l, IsHyphen);
      && PostalChars(r)
      && (forall i | 0 <= i < |r| && r[i] == '-' ::
            0 < i < |r| - 1 && IsAlnum(r[i - 1]) && IsAlnum(r[i + 1]))
      && Alnums(r) == Alnums(l)
  {
    var r := DropTrailing(l, IsHyphen);
    FencedPrefix(l, r);
    DropTrailingAlnums(l);
  }

  /** Dropping trailing hyphens keeps the letters and digits. */
  lemma {:induction false} DropTrailingAlnums(l: string)
    ensures Alnums(DropTrailing(l, IsHyphen)) == Alnums(l)
    decreases |l|
  {
    if l != [] && IsHyphen(l[|l| - 1]) {
      var init, last := l[..|l| - 1], [l[|l| - 1]];
      DropTrailingAlnums(init);
      assert l == init + last;
      AlnumsConcat(init, last);
      assert Alnums(last) == "" by { assert last[1..] == []; }
    }
  }

  /** The scrubbed postal code is made of upper-case letters, digits,
      spaces and hyphens; every hyphen stands between two letters or digits
      (so a run of spaces and hyphens holding a hyphen was merged into it,
      and no hyphen leads or trails); and no letter or digit is lost. */
  lemma ScrubPostalCodeSpec(s: string)
    ensures var r := ScrubPostalCode(s);
      && PostalChars(r)
      && (forall i | 0 <= i < |r| && r[i] == '-' ::
            0 < i < |r| - 1 && IsAlnum(r[i - 1]) && IsAlnum(r[i + 1]))
      && Alnums(r) == Alnums(Upper(s))
  {
    var k := KeepPostalChars(Upper(s));
    KeepPostalCharsAlnums(Upper(s));
    MergeDashesAlnums(k);
    MergeDashesFenced(k);
    var m := MergeDashes(k);
    DropLeadingHyphens(m);
    DropTrailingHyphens(DropLeading(m, IsHyphen));
  }

  /** Letters and digits are one kind of character, everything else the
      other. */
  predicate SameKind(c: char, d: char) { IsAlnum(c) == IsAlnum(d) }

  /** A non-empty run of characters of one kind. */
  predicate Homogeneous(w: string)
  {
    w != [] && forall i | 0 <= i < |w| :: SameKind(w[i], w[0])
  }

  /** Pieces of one kind each, the kinds alternating. */
  predicate Alternating(rs: seq<string>)
  {
    && (forall j | 0 <= j < |rs| :: Homogeneous(rs[j]))
    && (forall j | 0 < j < |rs| :: !SameKind(rs[j - 1][0], rs[j][0]))
  }

  /** Length of the leading run of characters of the kind of `s[0]`. */
  function RunLength(s: string): (n: nat)
    requires s != []
    ensures 1 <= n <= |s|
    ensures forall i | 0 <= i < n :: SameKind(s[i], s[0])
    ensures n < |s| ==> !SameKind(s[n], s[0])
    decreases |s|
  {
    if |s| == 1 || !SameKind(s[1], s[0]) then 1 else 1 + RunLength(s[1..])
  }

  /** `s` cut into its maximal runs: letters and digits on one side, other
      characters on the other, the kinds alternating. */
  function Runs(s: string): (rs: seq<string>)
    ensures Concat(rs) == s && Alternating(rs)
    decreases |s|
  {
    if s == [] then []
    else
      var n := RunLength(s);
      var rest := Runs(s[n..]);
      RunsStep(s, rest);
      [s[..n]] + rest
  }

  /** A maximal leading run in front of the runs of the rest. */
  lemma RunsStep(s: string, rest: seq<string>)
    requires s != [] && Concat(rest) == s[RunLength(s)..] && Alternating(rest)
    ensures var run := s[..RunLength(s)];
      Concat([run] + rest) == s && Alternating([run] + rest)
  {
    var n := RunLength(s);
    if rest != [] { ConcatHead(rest); }
    assert s == s[..n] + s[n..];
    assert ([s[..n]] + rest)[1..] == rest;
  }

  lemma ConcatHead(ws: seq<string>)
    requires ws != [] && ws[0] != []
    ensures Concat(ws) != [] && Concat(ws)[0] == ws[0][0]
  {
  }

  lemma {:induction false} ConcatLast(ws: seq<string>)
    requires ws != []
    ensures Concat(ws) == Concat(ws[..|ws| - 1]) + ws[|ws| - 1]
    decreases |ws|
  {
    if |ws| > 1 {
      ConcatLast(ws[1..]);
      assert ws[1..][..|ws| - 2] == ws[..|ws| - 1][1..];
    }
  }

  /** What the scrub makes of one run: a run without letters and digits
      that holds a hyphen becomes one hyphen; any other run stays as it
      is. */
  function MergeRun(w: string): string
  {
    if w != [] && !IsAlnum(w[0]) && '-' in w then "-" else w
  }

  function MergeRuns(rs: seq<string>): (ms: seq<string>)
    ensures |ms| == |rs| && forall j | 0 <= j < |rs| :: ms[j] == MergeRun(rs[j])
  {
    seq(|rs|, j requires 0 <= j < |rs| => MergeRun(rs[j]))
  }

  /** Drops a leading and a trailing piece that is a lone hyphen. */
  function TrimHyphenRuns(ms: seq<string>): seq<string>
  {
    DropLastHyphen(DropFirstHyphen(ms))
  }

  function DropFirstHyphen(ms: seq<string>): seq<string>
  {
    if ms != [] && ms[0] == "-" then ms[1..] else ms
  }

  function DropLastHyphen(ms: seq<string>): seq<string>
  {
    if ms != [] && ms[|ms| - 1] == "-" then ms[..|ms| - 1] else ms
  }

  /** Alternating pieces, a hyphen only as a piece of its own. */
  predicate MergedPieces(ms: seq<string>)
  {
    Alternating(ms) && forall j | 0 <= j < |ms| :: '-' in ms[j] ==> ms[j] == "-"
  }

  /** A prefix of letters and digits passes through `MergeDashes`. */
  lemma {:induction false} MergeAlnumPrefix(s: string, n: nat)
    requires n <= |s| && forall i | 0 <= i < n :: IsAlnum(s[i])
    ensures MergeDashes(s) == s[..n] + MergeDashes(s[n..])
    decreases n
  {
    if n > 0 {
      MergeAlnumPrefix(s[1..], n - 1);
      assert s[1..][n - 1..] == s[n..];
      assert s[..n] == [s[0]] + s[1..][..n - 1];
    }
  }

  /** `MergeDashes` works run by run. */
  lemma {:induction false} MergeDashesRuns(s: string)
    ensures MergeDashes(s) == Concat(MergeRuns(Runs(s)))
    decreases |s|
  {
    if s != [] {
      var n := RunLength(s);
      MergeDashesRuns(s[n..]);
      MergeFirstRun(s);
      MergeRunsCons(s[..n], Runs(s[n..]));
    }
  }

  /** `MergeDashes` treats the leading run as a whole. */
  lemma MergeFirstRun(s: string)
    requires s != []
    ensures var n := RunLength(s);
      MergeDashes(s) == MergeRun(s[..n]) + MergeDashes(s[n..])
  {
    if IsAlnum(s[0]) {
      MergeAlnumPrefix(s, RunLength(s));
    } else {
      MergeBreakRun(s);
    }
  }

  lemma MergeRunsCons(r: string, rest: seq<string>)
    ensures Concat(MergeRuns([r] + rest)) == MergeRun(r) + Concat(MergeRuns(rest))
  {
    assert MergeRuns([r] + rest) == [MergeRun(r)] + MergeRuns(rest);
  }

  /** A leading run without letters and digits is merged as one piece. */
  lemma MergeBreakRun(s: string)
    requires s != [] && !IsAlnum(s[0])
    ensures var n := RunLength(s);
      MergeDashes(s) == MergeRun(s[..n]) + MergeDashes(s[n..])
  {
    var b, n := BreakRun(s), RunLength(s);
    assert b < n ==> SameKind(s[b], s[0]);
    assert b == n;
  }

  lemma MergeRunsPieces(rs: seq<string>)
    requires Alternating(rs)
    ensures MergedPieces(MergeRuns(rs))
  {
    var ms := MergeRuns(rs);
    forall j | 0 <= j < |ms|
      ensures Homogeneous(ms[j]) && ('-' in ms[j] ==> ms[j] == "-")
    {
      if IsAlnum(rs[j][0]) {
        assert forall i | 0 <= i < |rs[j]| :: IsAlnum(rs[j][i]);
      }
    }
  }

  /** Stripping leading hyphens from merged pieces drops a first piece
      that is a lone hyphen. */
  lemma StripLeadingMerged(ms: seq<string>)
    requires MergedPieces(ms)
    ensures DropLeading(Concat(ms), IsHyphen) == Concat(DropFirstHyphen(ms))
  {
    if ms != [] {
      ConcatHead(ms);
      if ms[0] == "-" {
        var a := ms[1..];
        assert Concat(ms)[1..] == Concat(a);
        if a != [] { ConcatHead(a); }
      } else {
        assert ms[0][0] in ms[0];
      }
    }
  }

  /** Stripping trailing hyphens from merged pieces drops a last piece that
      is a lone hyphen. */
  lemma StripTrailingMerged(a: seq<string>)
    requires MergedPieces(a)
    ensures DropTrailing(Concat(a), IsHyphen) == Concat(DropLastHyphen(a))
  {
    if a != [] {
      var init, last := a[..|a| - 1], a[|a| - 1];
      ConcatLast(a);
      var c := Concat(a);
      assert c[|c| - 1] == last[|last| - 1];
      if last == "-" {
        assert c[..|c| - 1] == Concat(init);
        if init != [] {
          ConcatLast(init);
          var p := init[|init| - 1];
          assert p == a[|a| - 2];
          assert IsAlnum(p[0]);
          assert SameKind(p[|p| - 1], p[0]);
        }
      } else {
        assert last[|last| - 1] in last;
      }
    }
  }

  lemma MergedTail(ms: seq<string>)
    requires MergedPieces(ms) && ms != []
    ensures MergedPieces(ms[1..])
  {
  }

  /** Stripping hyphens from merged pieces drops a lone-hyphen piece at
      either end. */
  lemma StripMerged(ms: seq<string>)
    requires MergedPieces(ms)
    ensures StripWhere(Concat(ms), IsHyphen) == Concat(TrimHyphenRuns(ms))
  {
    StripLeadingMerged(ms);
    var a := DropFirstHyphen(ms);
    if a != ms { MergedTail(ms); }
    StripTrailingMerged(a);
  }

  /** The postal-code scrub run by run: the upper-cased string, cut to
      letters, digits, spaces and hyphens, is split into maximal runs of
      letters and digits and of spaces and hyphens; runs of letters and
      digits and runs of spaces alone are kept as they are, each run
      holding a hyphen becomes a single hyphen, and such a hyphen is
      dropped at either end. */
  lemma ScrubPostalCodeRuns(s: string)
    ensures ScrubPostalCode(s)
      == Concat(TrimHyphenRuns(MergeRuns(Runs(KeepPostalChars(Upper(s))))))
  {
    var k := KeepPostalChars(Upper(s));
    MergeDashesRuns(k);
    MergeRunsPieces(Runs(k));
    StripMerged(MergeRuns(Runs(k)));
  }

  /** Upper-casing leaves a string without lower-case letters alone. */
  lemma UpperFixed(s: string)
    requires forall i | 0 <= i < |s| :: !IsLowerAscii(s[i])
    ensures Upper(s) == s
  {
  }

  lemma KeepCons(c: char, rest: string)
    ensures KeepPostalChars([c] + rest)
      == (if IsPostalChar(c) then [c] else "") + KeepPostalChars(rest)
  {
    assert ([c] + rest)[1..] == rest;
  }

  lemma KeepSlashes()
    ensures KeepPostalChars("J/PPB1>6/_") == "JPPB16"
  {
    KeepSlashesTail();
    KeepCons('P', "B1>6/_");
    KeepCons('P', "PB1>6/_");
    KeepCons('/', "PPB1>6/_");
    KeepCons('J', "/PPB1>6/_");
  }

  lemma KeepSlashesTail()
    ensures KeepPostalChars("B1>6/_") == "B16"
  {
    KeepCons('_', "");
    KeepCons('/', "_");
    KeepCons('6', "/_");
    KeepCons('>', "6/_");
    KeepCons('1', ">6/_");
    KeepCons('B', "1>6/_");
  }

  /** Characters outside letters, digits, spaces and hyphens vanish. */
  lemma ScrubSlashes()
    ensures ScrubPostalCode("J/PPB1>6/_") == "JPPB16"
  {
    UpperSlashes();
    KeepSlashes();
    ScrubbedSlashes();
  }

  lemma UpperSlashes()
    ensures Upper("J/PPB1>6/_") == "J/PPB1>6/_"
  {
    UpperFixed("J/PPB1>6/_");
  }

  lemma ScrubbedSlashes()
    ensures StripWhere(MergeDashes("JPPB16"), IsHyphen) == "JPPB16"
  {
    MergeAlnumWord("JPPB16");
    StripFixed("JPPB16");
  }

  /** Spaces and hyphens only, with at least one hyphen. */
  predicate HyphenatedBreak(sep: string)
  {
    '-' in sep && forall i | 0 <= i < |sep| :: sep[i] == ' ' || sep[i] == '-'
  }

  predicate AlnumWord(w: string)
  {
    w != [] && forall i | 0 <= i < |w| :: IsAlnum(w[i])
  }

  lemma KeepFixed(s: string)
    requires PostalChars(s)
    ensures KeepPostalChars(s) == s
  {
  }

  lemma {:induction false} MergeAlnumWord(w: string)
    requires forall i | 0 <= i < |w| :: IsAlnum(w[i])
    ensures MergeDashes(w) == w
    decreases |w|
  {
    if w != [] {
      MergeAlnumWord(w[1..]);
      assert w == [w[0]] + w[1..];
    }
  }

  /** A string that neither starts nor ends with a hyphen is not
      stripped. */
  lemma StripFixed(s: string)
    requires s != [] ==> s[0] != '-' && s[|s| - 1] != '-'
    ensures StripWhere(s, IsHyphen) == s
  {
    assert DropLeading(s, IsHyphen) == s;
  }

  lemma MergeBreak(sep: string, b: string)
    requires HyphenatedBreak(sep) && AlnumWord(b)
    ensures MergeDashes(sep + b) == "-" + MergeDashes(b)
  {
    var t := sep + b;
    MergeBreakRun(t);
    var n := RunLength(t);
    assert t[|sep|] == b[0];
    assert n == |sep|;
    assert t[..|sep|] == sep && t[|sep|..] == b;
  }

  lemma MergeJoin(a: string, sep: string, b: string)
    requires AlnumWord(a) && HyphenatedBreak(sep) && AlnumWord(b)
    ensures MergeDashes(a + sep + b) == a + "-" + b
  {
    var t := sep + b;
    assert a + sep + b == a + t;
    MergeAlnumPrefix(a + t, |a|);
    MergeBreak(sep, b);
    MergeAlnumWord(b);
    assert a + ("-" + b) == a + "-" + b;
  }

  lemma JoinPostal(a: string, sep: string, b: string)
    requires AlnumWord(a) && HyphenatedBreak(sep) && AlnumWord(b)
    ensures PostalChars(a + sep + b)
  {
    PostalCharsConcat(a, sep);
    PostalCharsConcat(a + sep, b);
  }

  /** Two words of letters and digits with spaces and hyphens between them,
      at least one a hyphen, scrub to the words joined by one hyphen. */
  lemma HyphenJoin(a: string, sep: string, b: string)
    requires AlnumWord(a) && HyphenatedBreak(sep) && AlnumWord(b)
    ensures ScrubPostalCode(a + sep + b) == a + "-" + b
  {
    var s := a + sep + b;
    JoinPostal(a, sep, b);
    UpperFixed(s);
    KeepFixed(s);
    MergeJoin(a, sep, b);
    var m := a + "-" + b;
    assert m[0] == a[0] && m[|m| - 1] == b[|b| - 1];
    StripFixed(m);
  }

  /** Spaces around a hyphen merge into it. */
  lemma ScrubSpacedHyphen()
    ensures ScrubPostalCode("75 - 008") == "75-008"
  {
    SpacedHyphenParts();
    HyphenJoin("75", " - ", "008");
  }

  lemma SpacedHyphenParts()
    ensures "75" + " - " + "008" == "75 - 008" && "75" + "-" + "008" == "75-008"
    ensures AlnumWord("75") && HyphenatedBreak(" - ") && AlnumWord("008")
  {
  }

  /** Keeping the keys unique through `d.update(e)`. */
  lemma {:induction false} PutAllUnique(d: Ordered, e: Ordered)
    requires UniqueKeys(d)
    ensures UniqueKeys(PutAll(d, e))
    decreases |e|
  {
    if e != [] {
      PutUnique(d, e[0].0, e[0].1);
      PutAllUnique(Put(d, e[0].0, e[0].1), e[1..]);
    }
  }

  // ----------------------------------------------------------------------
  // Errors (`InvalidAddress`)
  // ----------------------------------------------------------------------

  /** `InvalidAddress`: the fields that are missing, the invalid fields
      with their values, and the pairs of fields that disagree. */
  datatype InvalidAddress = InvalidAddress(
    required: set<string>,
    invalid: map<string, Value>,
    inconsistent: set<(string, string)>)

  /** What an address operation raises: a built-in exception, or an
      `InvalidAddress`. */
  datatype Failure = Raised(error: Error) | Invalid(report: InvalidAddress)

  /** Python's `<` on strings. */
  predicate Before(a: string, b: string)
    decreases |a|
  {
    if a == [] then b != []
    else if b == [] then false
    else if a[0] != b[0] then a[0] < b[0]
    else Before(a[1..], b[1..])
  }

  /** `tuple(sorted((a, b)))`. */
  function SortedPair(a: string, b: string): (string, string)
  {
    if Before(b, a) then (b, a) else (a, b)
  }

  /** Every base field sorts before "subdivision_code" or is it, so a
      pair with it keeps its order. */
  lemma SortedWithSubdivision(k: string)
    requires k in BaseFieldIds
    ensures SortedPair(k, "subdivision_code") == (k, "subdivision_code")
  {
  }

  // ----------------------------------------------------------------------
  // The steps of `normalize`
  // ----------------------------------------------------------------------

  /** Four assignments to one key leave only the last. */
  lemma Overwrites<K, V>(m: map<K, V>, k: K, a: V, b: V, c: V, d: V)
    ensures m[k := a][k := b][k := c][k := d] == m[k := d]
  {
  }

  /** Step 1: a set postal code is scrubbed. */
  function ScrubStep(f: Fields): (r: Fields)
    requires Stored(f)
    ensures Stored(r)
  {
    var p := f["postal_code"];
    if Truthy(p) then
      var scrubbed := Str(ScrubPostalCode(p.s));
      StoredUpdate(f, "postal_code", scrubbed);
      f["postal_code" := scrubbed]
    else f
  }

  /** What the whitespace loop leaves in a field: a string base field gets
      its spaces collapsed; `__setitem__` refuses any other field with a
      `KeyError`, which the loop ignores. */
  function CollapsedValue(k: string, v: Value): Value
  {
    if k in BaseFieldIds && v.Str? then Str(CollapseSpaces(v.s)) else v
  }

  /** Step 2: spaces are collapsed in every string base field. */
  function CollapseStep(f: Fields): (r: Fields)
    requires Stored(f)
    ensures Stored(r)
  {
    map k | k in f :: CollapsedValue(k, f[k])
  }

  /** Step 3: deleting every empty field resets a base field to `None` and
      removes any other field. */
  function BlankStep(f: Fields): (r: Fields)
    requires Stored(f)
    ensures Stored(r)
  {
    map k | k in f && (k in BaseFieldIds || Truthy(f[k])) :: if Truthy(f[k]) then f[k] else Null
  }

  /** The fields while the blank-field loop still has `pending` to visit:
      the visited falsy fields are reset or removed. */
  function BlanksPending(f: Fields, pending: set<string>): Fields
  {
    map k | k in f && (k in BaseFieldIds || Truthy(f[k]) || k in pending) ::
      if Truthy(f[k]) || k in pending then f[k] else Null
  }

  /** Before the loop every falsy field is pending, and nothing changed. */
  lemma BlanksStart(f: Fields, pending: set<string>)
    requires pending == set k | k in f && !Truthy(f[k])
    ensures BlanksPending(f, pending) == f
  {
  }

  /** Visiting one pending field resets a base field and removes any
      other. */
  lemma BlanksStep(f: Fields, pending: set<string>, k: string)
    requires k in pending && pending <= f.Keys && !Truthy(f[k])
    ensures k in BlanksPending(f, pending)
    ensures k in BaseFieldIds ==> BlanksPending(f, pending - {k}) == BlanksPending(f, pending)[k := Null]
    ensures k !in BaseFieldIds ==> BlanksPending(f, pending - {k}) == BlanksPending(f, pending) - {k}
  {
  }

  /** Step 4: a second line without a first one moves up. */
  function SwapStep(f: Fields): (r: Fields)
    requires Stored(f)
    ensures Stored(r)
  {
    if Truthy(f["line2"]) && !Truthy(f["line1"]) then f["line1" := f["line2"]]["line2" := f["line1"]]
    else f
  }

  /** The fields holding territory codes, in the order they are normalized. */
  const TerritoryFieldIds: seq<string> := ["country_code", "subdivision_code"]

  /** A set code is normalized without resolving aliases; an unsupported
      one becomes `None`. */
  function CodeValue(t: Tables, db: Database, v: Value): Value
  {
    if v.Str? && v.s != "" then
      match NormalizeTerritoryCode(t, db, v.s, false, false)
      case Ok(code) => Str(code)
      case Err(_) => Null
    else v
  }

  /** Step 5 on one territory field: its code, normalized or reset. */
  function CodeStep(t: Tables, db: Database, f: Fields, k: string): (r: Fields)
    requires Stored(f) && k in BaseFieldIds
    ensures Stored(r)
  {
    var v := CodeValue(t, db, f[k]);
    StoredUpdate(f, k, v);
    f[k := v]
  }

  /** Step 5: each territory field in turn. */
  function CodeSteps(t: Tables, db: Database, f: Fields, ids: seq<string>): (r: Fields)
    requires Stored(f) && forall i | 0 <= i < |ids| :: ids[i] in BaseFieldIds
    ensures Stored(r)
    decreases |ids|
  {
    if ids == [] then f
    else CodeSteps(t, db, CodeStep(t, db, f, ids[0]), ids[1..])
  }

  /** The default subdivision of a country: its only candidate. */
  ghost function DefaultOf(t: Tables, countryCode: string): Option<string>
  {
    var candidates := DefaultCandidates(t, countryCode);
    if |candidates| == 1 then
      var s :| s in candidates; Some(s)
    else None
  }

  /** Step 6: a country without a subdivision takes its default
      subdivision, and then loses its own code, to be derived again. */
  ghost function DefaultStep(t: Tables, f: Fields): (r: Fields)
    requires Stored(f)
    ensures Stored(r)
  {
    if Truthy(f["country_code"]) && !Truthy(f["subdivision_code"]) then
      var subdivision := OptionValue(DefaultOf(t, f["country_code"].s));
      if Truthy(subdivision) then f["subdivision_code" := subdivision]["country_code" := Null]
      else f["subdivision_code" := subdivision]
    else f
  }

  /** The metadata of the parents, gathered into `acc` in order; an error
      stops it. Only a subdivision has metadata. */
  function Gather(acc: Ordered, parents: seq<Territory>): Result<Ordered, Error>
    decreases |parents|
  {
    if parents == [] then Ok(acc)
    else
      match parents[0]
      case SubdivisionEntity(sub) =>
        (match SubdivisionMetadata(sub)
         case Err(e) => Err(e)
         case Ok(m) => Gather(PutAll(acc, m), parents[1..]))
      case _ => Err(AttributeError)
  }

  /** The dict of derived values of a subdivision code: the country
      found for it, then the metadata of the subdivision and each of its
      ancestors. */
  ghost function ParentMetadata(t: Tables, db: Database, code: string): Result<Ordered, Error>
    requires WellFormed(t, db)
  {
    var first := [("country_code", OptionValue(CountryFromSubdivision(t, db, code)))];
    match ParentsSpec(t, db, code, false)
    case Err(e) => Err(e)
    case Ok(parents) => Gather(first, parents)
  }

  /** The strict check of one derived value: it must be set, and it may
      replace a set base field only if it equals it, or, for the country,
      if the field holds the country of the database subdivision. */
  function CheckEntry(db: Database, f: Fields, code: string, k: string, v: Value): Option<Failure>
  {
    if !Truthy(v) then Some(Raised(AssertionError))
    else
      var current := Get(f, k);
      if Truthy(current) && k in BaseFieldIds then
        if k == "country_code" && code !in db.subdivisions then Some(Raised(AttributeError))
        else
          var aliases := {v} + (if k == "country_code" then {Str(db.subdivisions[code].countryCode)} else {});
          if current in aliases then None
          else Some(Invalid(InvalidAddress({}, map[], {SortedPair(k, "subdivision_code")})))
      else None
  }

  /** The strict check of the derived values, in order: the first failure. */
  function StrictCheck(db: Database, f: Fields, code: string, meta: Ordered): Option<Failure>
    decreases |meta|
  {
    if meta == [] then None
    else
      match CheckEntry(db, f, code, meta[0].0, meta[0].1)
      case Some(failure) => Some(failure)
      case None => StrictCheck(db, f, code, meta[1..])
  }

  /** Step 7: a set subdivision brings its derived values, checked first in
      strict mode. */
  ghost function MetadataStep(t: Tables, db: Database, f: Fields, strict: bool): (Fields, Option<Failure>)
    requires WellFormed(t, db) && Stored(f)
  {
    if !Truthy(f["subdivision_code"]) then (f, None)
    else Merge(db, f, ParentMetadata(t, db, f["subdivision_code"].s), strict)
  }

  /** Step 7 for a set subdivision, once its derived values are looked up. */
  function Merge(db: Database, f: Fields, meta: Result<Ordered, Error>, strict: bool): (Fields, Option<Failure>)
    requires Stored(f) && Truthy(f["subdivision_code"])
  {
    match meta
    case Err(e) => (f, Some(Raised(e)))
    case Ok(m) =>
      var failure := if strict then StrictCheck(db, f, f["subdivision_code"].s, m) else None;
      if failure.Some? then (f, failure) else (Overlay(f, m), None)
  }

  /** The fields after the first five steps. */
  function Coded(t: Tables, db: Database, f: Fields): (r: Fields)
    requires Stored(f)
    ensures Stored(r)
  {
    CodeSteps(t, db, SwapStep(BlankStep(CollapseStep(ScrubStep(f)))), TerritoryFieldIds)
  }

  /** The fields after the first six steps, which never fail. */
  ghost function Prepared(t: Tables, db: Database, f: Fields): (r: Fields)
    requires Stored(f)
    ensures Stored(r)
  {
    DefaultStep(t, Coded(t, db, f))
  }

  /** `normalize`: the fields it leaves, and what it raises. A failure
      leaves the fields as the first six steps made them. */
  ghost function NormalizeSpec(t: Tables, db: Database, f: Fields, strict: bool): (Fields, Option<Failure>)
    requires WellFormed(t, db) && Stored(f)
  {
    MetadataStep(t, db, Prepared(t, db, f), strict)
  }

  /** The metadata loop of `normalize`: each parent's metadata updates
      the dict in turn. */
  method GatherMetadata(first: Ordered, parents: seq<Territory>) returns (r: Result<Ordered, Error>)
    ensures r == Gather(first, parents)
  {
    var meta := first;
    for i := 0 to |parents|
      invariant Gather(meta, parents[i..]) == Gather(first, parents)
    {
      assert parents[i..][1..] == parents[i + 1..];
      match parents[i]
      case SubdivisionEntity(sub) =>
        var m := SubdivisionMetadata(sub);
        if m.Err? {
          return Err(m.error);
        }
        meta := PutAll(meta, m.value);
      case _ =>
        return Err(AttributeError);
    }
    assert parents[|parents|..] == [];
    r := Ok(meta);
  }

  /** The derived values of a subdivision code, gathered as
      `normalize` does. */
  method ParentMetadataOf(t: Tables, db: Database, code: string) returns (r: Result<Ordered, Error>)
    requires WellFormed(t, db)
    ensures r == ParentMetadata(t, db, code)
  {
    var first := [("country_code", OptionValue(CountryFromSubdivision(t, db, code)))];
    var parents := TerritoryParents(t, db, code, false);
    if parents.Err? {
      return Err(parents.error);
    }
    r := GatherMetadata(first, parents.value);
  }

  // ----------------------------------------------------------------------
  // The address
  // ----------------------------------------------------------------------

  /** `dict.fromkeys(BASE_FIELD_IDS)`. */
  const NoFields: Fields := map k | k in BaseFieldIds :: Null

  /** The fields after the keyword arguments were set one by one. */
  function Loaded(f: Fields, kwargs: seq<(string, Value)>): (r: Fields)
    ensures Stored(f) && (forall i | 0 <= i < |kwargs| :: kwargs[i].0 in BaseFieldIds && IsText(kwargs[i].1))
      ==> Stored(r)
    decreases |kwargs|
  {
    if kwargs == [] then f
    else
      var g := f[kwargs[0].0 := kwargs[0].1];
      assert forall i | 0 <= i < |kwargs[1..]| :: kwargs[1..][i] == kwargs[i + 1];
      Loaded(g, kwargs[1..])
  }

  /** A fresh store holds the invariant. */
  lemma NoFieldsStored()
    ensures Stored(NoFields)
  {
  }

  /** Keyword arguments that name base fields and hold a `str` or `None`. */
  predicate Settable(kwargs: seq<(string, Value)>)
  {
    forall i | 0 <= i < |kwargs| :: kwargs[i].0 in BaseFieldIds && IsText(kwargs[i].1)
  }

  /** The fields of a new address before `normalize`. */
  function Initial(kwargs: seq<(string, Value)>): (r: Fields)
    ensures Settable(kwargs) ==> Stored(r)
  {
    NoFieldsStored();
    Loaded(NoFields, kwargs)
  }

  // ----------------------------------------------------------------------
  // Validation (`validate`, `valid`, `empty`)
  // ----------------------------------------------------------------------

  /** `check_required_fields`: the required fields that are not set. */
  function RequiredOf(f: Fields): set<string>
    requires Stored(f)
  {
    set k | k in RequiredFieldIds && !Truthy(Get(f, k))
  }

  /** `check_invalid_fields`: the country, unless it is missing, when the
      database has no country under it; the subdivision, when it is set
      and not missing, when the database has no subdivision under it. */
  function InvalidOf(db: Database, f: Fields, required: set<string>): map<string, Value>
    requires Stored(f)
  {
    var country := f["country_code"];
    var subdivision := f["subdivision_code"];
    var countryBad := "country_code" !in required && !(country.Str? && country.s in db.countries);
    var subdivisionBad := Truthy(subdivision) && "subdivision_code" !in required && subdivision.s !in db.subdivisions;
    (if countryBad then map["country_code" := country] else map[])
      + (if subdivisionBad then map["subdivision_code" := subdivision] else map[])
  }

  /** `valid_subdivision_country`: an unset subdivision, or one whose
      country is the address's country. */
  predicate SubdivisionCountryMatches(t: Tables, db: Database, f: Fields)
    requires Stored(f)
  {
    var subdivision := f["subdivision_code"];
    !Truthy(subdivision) || OptionValue(CountryFromSubdivision(t, db, subdivision.s)) == f["country_code"]
  }

  /** `check_inconsistent_fields`: the country and the subdivision, as a
      sorted pair, when neither is already flagged and they disagree. */
  function InconsistentOf(t: Tables, db: Database, f: Fields, required: set<string>, invalid: map<string, Value>): set<(string, string)>
    requires Stored(f)
  {
    var wrong := required + invalid.Keys;
    if "country_code" !in wrong && "subdivision_code" !in wrong && !SubdivisionCountryMatches(t, db, f)
    then {("country_code", "subdivision_code")}
    else {}
  }

  /** `validate`: the `InvalidAddress` it raises, if any. */
  function ValidateSpec(t: Tables, db: Database, f: Fields): Option<InvalidAddress>
    requires Stored(f)
  {
    var required := RequiredOf(f);
    var invalid := InvalidOf(db, f, required);
    var inconsistent := InconsistentOf(t, db, f, required, invalid);
    if required != {} || invalid != map[] || inconsistent != {} then
      Some(InvalidAddress(required, invalid, inconsistent))
    else None
  }

  /** `empty`: no field holds a truthy value. */
  predicate IsEmpty(f: Fields)
  {
    forall k | k in f :: !Truthy(f[k])
  }

  // ----------------------------------------------------------------------
  // Rendering (`render`, `country_name`, `subdivision_name`)
  // ----------------------------------------------------------------------

  /** `country_name`: the common name of the country, or its name.
      pycountry's `get` ignores case, and its keys are upper-case, so the
      stored code is looked up upper-cased. */
  function CountryName(db: Database, f: Fields): Option<string>
    requires Stored(f)
  {
    var code := f["country_code"];
    if Truthy(code) && Upper(code.s) in db.countries then
      var country := db.countries[Upper(code.s)];
      Some(if country.commonName.Some? then country.commonName.value else country.name)
    else None
  }

  /** `subdivision_name`: the name of the subdivision, if it is known,
      looked up without regard to case as pycountry's `get` does. */
  function SubdivisionName(db: Database, f: Fields): Option<string>
    requires Stored(f)
  {
    var code := f["subdivision_code"];
    if Truthy(code) && Upper(code.s) in db.subdivisions then Some(db.subdivisions[Upper(code.s)].name) else None
  }

  /** The line of the postal code, city and state: a `str` state name is
      required when one is stored. */
  function ThirdLine(f: Fields): Result<string, Error>
    requires Stored(f)
  {
    if "state_name" in f && !f["state_name"].Str? then Err(TypeError)
    else
      var city := if Truthy(f["city_name"]) then [f["city_name"].s] else [];
      var state := if "state_name" in f then [f["state_name"].s] else [];
      var place := Join(", ", city + state);
      Ok(if Truthy(f["postal_code"]) then f["postal_code"].s + " - " + place else place)
  }

  /** The values the subdivision name is compared with: the city, the
      state if stored, and the country name. */
  function NameValues(db: Database, f: Fields): seq<Value>
    requires Stored(f)
  {
    [f["city_name"]] + (if "state_name" in f then [f["state_name"]] else []) + [OptionValue(CountryName(db, f))]
  }

  /** The lines of the block `render` joins. */
  function RenderLines(db: Database, f: Fields): Result<seq<string>, Error>
    requires Stored(f)
  {
    match ThirdLine(f)
    case Err(e) => Err(e)
    case Ok(line3) =>
      var subdivision := if SubdivisionShown(db, f) then [SubdivisionName(db, f).value] else [];
      Ok(StreetLines(f, line3) + subdivision + CountryLine(db, f))
  }

  /** The address lines and the third line, those that are not empty. */
  function StreetLines(f: Fields, line3: string): seq<string>
    requires Stored(f)
  {
    var line1 := if Truthy(f["line1"]) then [f["line1"].s] else [];
    var line2 := if Truthy(f["line2"]) then [f["line2"].s] else [];
    line1 + line2 + (if line3 != "" then [line3] else [])
  }

  /** The subdivision name is known, not empty, and repeats neither the
      city, nor the state name, nor the country name. */
  predicate SubdivisionShown(db: Database, f: Fields)
    requires Stored(f)
  {
    var name := SubdivisionName(db, f);
    name.Some? && name.value != "" && Str(name.value) !in NameValues(db, f)
  }

  /** The last line: the country name, when it is known and not empty. */
  function CountryLine(db: Database, f: Fields): seq<string>
    requires Stored(f)
  {
    var country := CountryName(db, f);
    if country.Some? && country.value != "" then [country.value] else []
  }

  /** `render(separator)`. */
  function RenderSpec(db: Database, f: Fields, separator: string): Result<string, Error>
    requires Stored(f)
  {
    match RenderLines(db, f)
    case Err(e) => Err(e)
    case Ok(lines) => Ok(Join(separator, lines))
  }

  /** `Address`: a store of fields. */
  class Address {
    /** `_fields`. */
    var fields: Fields

    /** Every base field, unset. */
    constructor Blank()
      ensures fields == NoFields && Stored(fields)
    {
      fields := NoFields;
    }

    /** `Address(strict, **kwargs)`: an unknown field raises `KeyError`
        before anything is set, a value that is neither a `str` nor `None`
        raises `TypeError`, and the loaded fields are then normalized. A
        failure means no address; the returned object is the one that was
        being built. */
    static method Create(t: Tables, db: Database, strict: bool, kwargs: seq<(string, Value)>)
      returns (a: Address, failure: Option<Failure>)
      requires WellFormed(t, db)
      ensures fresh(a)
      ensures (exists i | 0 <= i < |kwargs| :: kwargs[i].0 !in BaseFieldIds) ==>
        failure == Some(Raised(KeyError))
      ensures (forall i | 0 <= i < |kwargs| :: kwargs[i].0 in BaseFieldIds) &&
              (exists i | 0 <= i < |kwargs| :: !IsText(kwargs[i].1)) ==>
        failure == Some(Raised(TypeError))
      ensures Settable(kwargs) ==> (a.fields, failure) == NormalizeSpec(t, db, Initial(kwargs), strict)
    {
      var unknown := set i | 0 <= i < |kwargs| && kwargs[i].0 !in BaseFieldIds :: kwargs[i].0;
      NoFieldsStored();
      a := new Address.Blank();
      if unknown != {} {
        return a, Some(Raised(KeyError));
      }
      var error := a.Load(kwargs);
      if error.Some? {
        return a, Some(Raised(error.value));
      }
      assert a.fields == Initial(kwargs);
      failure := a.Normalize(t, db, strict);
    }

    /** The loop of the constructor that sets each keyword argument. */
    method Load(kwargs: seq<(string, Value)>) returns (error: Option<Error>)
      requires Stored(fields)
      requires forall i | 0 <= i < |kwargs| :: kwargs[i].0 in BaseFieldIds
      modifies this
      ensures Settable(kwargs) ==> error.None? && fields == Loaded(old(fields), kwargs)
      ensures !Settable(kwargs) ==> error == Some(TypeError)
    {
      for j := 0 to |kwargs|
        invariant Stored(fields)
        invariant forall m | 0 <= m < j :: IsText(kwargs[m].1)
        invariant Loaded(fields, kwargs[j..]) == Loaded(old(fields), kwargs)
      {
        assert kwargs[j..][1..] == kwargs[j + 1..];
        error := SetItem(Str(kwargs[j].0), kwargs[j].1);
        if error.Some? {
          return;
        }
      }
      assert kwargs[|kwargs|..] == [];
      error := None;
    }

    /** `__setitem__`: the key must be a `str` and the value a `str` or
        `None`, else `TypeError`; only a base field may be set, else
        `KeyError`; and only that field changes. */
    method SetItem(key: Value, value: Value) returns (error: Option<Error>)
      modifies this
      ensures !key.Str? || !IsText(value) ==> error == Some(TypeError) && fields == old(fields)
      ensures key.Str? && IsText(value) && key.s !in BaseFieldIds ==>
        error == Some(KeyError) && fields == old(fields)
      ensures key.Str? && IsText(value) && key.s in BaseFieldIds ==>
        error.None? && fields == old(fields)[key.s := value]
      ensures Stored(old(fields)) ==> Stored(fields)
    {
      if !key.Str? || !IsText(value) {
        return Some(TypeError);
      }
      if key.s !in BaseFieldIds {
        return Some(KeyError);
      }
      fields := fields[key.s := value];
      error := None;
    }

    /** `__delitem__`: a base field is reset to `None` and stays; any
        other field is removed; a missing one raises `KeyError`. */
    method DelItem(key: Value) returns (error: Option<Error>)
      modifies this
      ensures key.Str? && key.s in BaseFieldIds ==>
        error.None? && fields == old(fields)[key.s := Null]
      ensures key.Str? && key.s !in BaseFieldIds && key.s in old(fields) ==>
        error.None? && fields == old(fields) - {key.s}
      ensures !(key.Str? && (key.s in BaseFieldIds || key.s in old(fields))) ==>
        error == Some(KeyError) && fields == old(fields)
      ensures Stored(old(fields)) ==> Stored(fields)
    {
      if key.Str? && key.s in BaseFieldIds {
        fields := fields[key.s := Null];
        error := None;
      } else if key.Str? && key.s in fields {
        fields := fields - {key.s};
        error := None;
      } else {
        error := Some(KeyError);
      }
    }

    /** The whitespace loop of `normalize`. */
    method CollapseFields()
      requires Stored(fields)
      modifies this
      ensures fields == CollapseStep(old(fields))
    {
      var todo := fields.Keys;
      while todo != {}
        invariant todo <= old(fields).Keys && fields.Keys == old(fields).Keys
        invariant forall k | k in fields ::
          fields[k] == if k in todo then old(fields)[k] else CollapsedValue(k, old(fields)[k])
        decreases |todo|
      {
        var k :| k in todo;
        var v := fields[k];
        if v.Str? {
          var ignored := SetItem(Str(k), Str(CollapseSpaces(v.s)));
        }
        todo := todo - {k};
      }
    }

    /** The blank-field loop of `normalize`. */
    method ResetBlanks()
      requires Stored(fields)
      modifies this
      ensures fields == BlankStep(old(fields))
    {
      var empty := set k | k in fields && !Truthy(fields[k]);
      BlanksStart(fields, empty);
      while empty != {}
        invariant empty <= old(fields).Keys
        invariant forall k | k in empty :: !Truthy(old(fields)[k])
        invariant fields == BlanksPending(old(fields), empty)
        decreases |empty|
      {
        var k :| k in empty;
        BlanksStep(old(fields), empty, k);
        var ignored := DelItem(Str(k));
        empty := empty - {k};
      }
      assert BlanksPending(old(fields), {}) == BlankStep(old(fields));
    }

    /** The territory-code loop of `normalize`. */
    method NormalizeCodes(t: Tables, db: Database)
      requires Stored(fields)
      modifies this
      ensures Stored(fields)
      ensures fields == CodeSteps(t, db, old(fields), TerritoryFieldIds)
    {
      var ids := TerritoryFieldIds;
      for i := 0 to |ids|
        invariant Stored(fields)
        invariant CodeSteps(t, db, fields, ids[i..]) == CodeSteps(t, db, old(fields), ids)
      {
        assert ids[i..][1..] == ids[i + 1..];
        NormalizeCode(t, db, ids[i]);
      }
      assert ids[|ids|..] == [];
    }

    /** One territory field: a set code is normalized, or reset to `None`
        when it is not supported. */
    method NormalizeCode(t: Tables, db: Database, k: string)
      requires Stored(fields) && k in BaseFieldIds
      modifies this
      ensures fields == CodeStep(t, db, old(fields), k)
    {
      var code := fields[k];
      if Truthy(code) {
        var normalized := NormalizeTerritoryCode(t, db, code.s, false, false);
        var ignored := SetItem(Str(k), if normalized.Ok? then Str(normalized.value) else Null);
      } else {
        assert old(fields)[k := code] == old(fields);
      }
    }

    /** The strict check of `normalize`, over the derived values in order. */
    method CheckStrict(db: Database, code: string, meta: Ordered) returns (failure: Option<Failure>)
      ensures failure == StrictCheck(db, fields, code, meta)
    {
      for i := 0 to |meta|
        invariant StrictCheck(db, fields, code, meta[i..]) == StrictCheck(db, fields, code, meta)
      {
        assert meta[i..][1..] == meta[i + 1..];
        var (k, v) := meta[i];
        if !Truthy(v) {
          return Some(Raised(AssertionError));
        }
        var current := Get(fields, k);
        if Truthy(current) && k in BaseFieldIds {
          var aliases := {v};
          if k == "country_code" {
            if code !in db.subdivisions {
              return Some(Raised(AttributeError));
            }
            aliases := aliases + {Str(db.subdivisions[code].countryCode)};
          }
          if current !in aliases {
            return Some(Invalid(InvalidAddress({}, map[], {SortedPair(k, "subdivision_code")})));
          }
        }
      }
      assert meta[|meta|..] == [];
      failure := None;
    }

    /** The postal-code scrub of `normalize`, in its four assignments. */
    method ScrubPostalField()
      requires Stored(fields)
      modifies this
      ensures fields == ScrubStep(old(fields))
    {
      var postal := fields["postal_code"];
      if Truthy(postal) {
        // Each assignment is the success case of `__setitem__`: a `str`
        // set on a base field.
        var code := Upper(postal.s);
        fields := fields["postal_code" := Str(code)];
        code := KeepPostalChars(code);
        fields := fields["postal_code" := Str(code)];
        code := MergeDashes(code);
        fields := fields["postal_code" := Str(code)];
        code := StripWhere(code, IsHyphen);
        fields := fields["postal_code" := Str(code)];
        Overwrites(old(fields), "postal_code", Str(Upper(postal.s)), Str(KeepPostalChars(Upper(postal.s))),
          Str(MergeDashes(KeepPostalChars(Upper(postal.s)))), Str(code));
      }
    }

    /** The line swap of `normalize`. */
    method SwapLines()
      requires Stored(fields)
      modifies this
      ensures fields == SwapStep(old(fields))
    {
      if Truthy(fields["line2"]) && !Truthy(fields["line1"]) {
        var line1, line2 := fields["line2"], fields["line1"];
        var ignored := SetItem(Str("line1"), line1);
        ignored := SetItem(Str("line2"), line2);
      }
    }

    /** The default subdivision of `normalize`. */
    method AdoptDefault(t: Tables)
      requires Stored(fields)
      modifies this
      ensures fields == DefaultStep(t, old(fields))
    {
      if Truthy(fields["country_code"]) && !Truthy(fields["subdivision_code"]) {
        var default := DefaultSubdivisionCode(t, fields["country_code"].s);
        DefaultOfIs(t, fields["country_code"].s, default);
        var ignored := SetItem(Str("subdivision_code"), OptionValue(default));
        if Truthy(fields["subdivision_code"]) {
          ignored := SetItem(Str("country_code"), Null);
        }
      }
    }

    /** The metadata merge of `normalize`. */
    method MergeMetadata(t: Tables, db: Database, strict: bool) returns (failure: Option<Failure>)
      requires WellFormed(t, db) && Stored(fields)
      modifies this
      ensures (fields, failure) == MetadataStep(t, db, old(fields), strict)
    {
      failure := None;
      if Truthy(fields["subdivision_code"]) {
        var code := fields["subdivision_code"].s;
        var meta := ParentMetadataOf(t, db, code);
        if meta.Err? {
          return Some(Raised(meta.error));
        }
        if strict {
          failure := CheckStrict(db, code, meta.value);
          if failure.Some? {
            return;
          }
        }
        fields := Overlay(fields, meta.value);
      }
    }

    /** `normalize`. */
    method Normalize(t: Tables, db: Database, strict: bool) returns (failure: Option<Failure>)
      requires WellFormed(t, db) && Stored(fields)
      modifies this
      ensures (fields, failure) == NormalizeSpec(t, db, old(fields), strict)
    {
      ScrubPostalField();
      CollapseFields();
      ResetBlanks();
      SwapLines();
      NormalizeCodes(t, db);
      AdoptDefault(t);
      failure := MergeMetadata(t, db, strict);
    }

    /** `check_required_fields`: a loop over the required fields. */
    method CheckRequiredFields() returns (required: set<string>)
      requires Stored(fields)
      ensures required == RequiredOf(fields)
    {
      StoredBase(fields);
      required := {};
      var todo := RequiredFieldIds;
      while todo != {}
        invariant todo <= RequiredFieldIds
        invariant required == set k | k in RequiredFieldIds - todo && !Truthy(Get(fields, k))
        decreases |todo|
      {
        var k :| k in todo;
        if !Truthy(fields[k]) {
          required := required + {k};
        }
        todo := todo - {k};
      }
    }

    /** `check_invalid_fields`. */
    method CheckInvalidFields(db: Database, required: set<string>) returns (invalid: map<string, Value>)
      requires Stored(fields)
      ensures invalid == InvalidOf(db, fields, required)
    {
      invalid := map[];
      var country := fields["country_code"];
      if "country_code" !in required && !(country.Str? && country.s in db.countries) {
        invalid := invalid["country_code" := country];
      }
      var subdivision := fields["subdivision_code"];
      if Truthy(subdivision) && "subdivision_code" !in required && subdivision.s !in db.subdivisions {
        invalid := invalid["subdivision_code" := subdivision];
      }
    }

    /** `check_inconsistent_fields`. */
    method CheckInconsistentFields(t: Tables, db: Database, required: set<string>, invalid: map<string, Value>)
      returns (inconsistent: set<(string, string)>)
      requires Stored(fields)
      ensures inconsistent == InconsistentOf(t, db, fields, required, invalid)
    {
      inconsistent := {};
      var wrong := required + invalid.Keys;
      if "country_code" !in wrong && "subdivision_code" !in wrong && !SubdivisionCountryMatches(t, db, fields) {
        inconsistent := inconsistent + {("country_code", "subdivision_code")};
      }
    }

    /** `validate`: the `InvalidAddress` it raises, if any. */
    method Validate(t: Tables, db: Database) returns (error: Option<InvalidAddress>)
      requires Stored(fields)
      ensures error == ValidateSpec(t, db, fields)
    {
      var required := CheckRequiredFields();
      var invalid := CheckInvalidFields(db, required);
      var inconsistent := CheckInconsistentFields(t, db, required, invalid);
      if required != {} || invalid != map[] || inconsistent != {} {
        return Some(InvalidAddress(required, invalid, inconsistent));
      }
      return None;
    }

    /** `valid`: whether `validate` passes. */
    method Valid(t: Tables, db: Database) returns (valid: bool)
      requires Stored(fields)
      ensures valid <==> ValidateSpec(t, db, fields).None?
    {
      var error := Validate(t, db);
      valid := error.None?;
    }

    /** `empty`: a loop over the fields that stops at a truthy one. */
    method Empty() returns (empty: bool)
      ensures empty <==> IsEmpty(fields)
    {
      var todo := fields.Keys;
      while todo != {}
        invariant todo <= fields.Keys
        invariant forall k | k in fields && k !in todo :: !Truthy(fields[k])
        decreases |todo|
      {
        var k :| k in todo;
        if Truthy(fields[k]) {
          return false;
        }
        todo := todo - {k};
      }
      return true;
    }

    /** The third line of `render`: the city and the state joined by a
        comma, after the postal code and a dash. */
    method ComposeThirdLine() returns (r: Result<string, Error>)
      requires Stored(fields)
      ensures r == ThirdLine(fields)
    {
      var elements: seq<string> := [];
      if Truthy(fields["city_name"]) {
        elements := elements + [fields["city_name"].s];
      }
      if "state_name" in fields {
        var state := fields["state_name"];
        if !state.Str? {
          return Err(TypeError);
        }
        elements := elements + [state.s];
      }
      var line3 := Join(", ", elements);
      assert elements ==
        (if Truthy(fields["city_name"]) then [fields["city_name"].s] else [])
        + (if "state_name" in fields then [fields["state_name"].s] else []);
      if Truthy(fields["postal_code"]) {
        var parts := [fields["postal_code"].s, line3];
        assert Join(" - ", parts) == parts[0] + " - " + Join(" - ", parts[1..]);
        assert parts[1..] == [line3];
        line3 := Join(" - ", parts);
      }
      return Ok(line3);
    }

    /** `render`: the lines are appended one by one, then joined. */
    method Render(db: Database, separator: string) returns (r: Result<string, Error>)
      requires Stored(fields)
      ensures r == RenderSpec(db, fields, separator)
    {
      var lines: seq<string> := [];
      if Truthy(fields["line1"]) {
        lines := lines + [fields["line1"].s];
      }
      if Truthy(fields["line2"]) {
        lines := lines + [fields["line2"].s];
      }
      assert lines == (if Truthy(fields["line1"]) then [fields["line1"].s] else [])
        + (if Truthy(fields["line2"]) then [fields["line2"].s] else []);
      var third := ComposeThirdLine();
      if third.Err? {
        return Err(third.error);
      }
      var line3 := third.value;
      if line3 != "" {
        lines := lines + [line3];
      }
      ghost var upper := lines;
      assert upper == (if Truthy(fields["line1"]) then [fields["line1"].s] else [])
        + (if Truthy(fields["line2"]) then [fields["line2"].s] else [])
        + (if line3 != "" then [line3] else []);
      var name := SubdivisionName(db, fields);
      var countryName := CountryName(db, fields);
      var known := [fields["city_name"]] + (if "state_name" in fields then [fields["state_name"]] else []) + [OptionValue(countryName)];
      assert known == NameValues(db, fields);
      ghost var subdivision: seq<string> := [];
      if name.Some? && name.value != "" && Str(name.value) !in known {
        lines := lines + [name.value];
        subdivision := [name.value];
      }
      ghost var country: seq<string> := [];
      if countryName.Some? && countryName.value != "" {
        lines := lines + [countryName.value];
        country := [countryName.value];
      }
      assert lines == upper + subdivision + country;
      r := Ok(Join(separator, lines));
    }
  }

  /** The default subdivision `default_subdivision_code` finds is the only
      candidate. */
  lemma DefaultOfIs(t: Tables, countryCode: string, r: Option<string>)
    requires r.Some? <==> |DefaultCandidates(t, countryCode)| == 1
    requires r.Some? ==> DefaultCandidates(t, countryCode) == {r.value}
    ensures DefaultOf(t, countryCode) == r
  {
  }

  // ----------------------------------------------------------------------
  // What `normalize` guarantees
  // ----------------------------------------------------------------------

  /** No subdivision type of the database gives a base field id. The
      address.py code only asserts that some metadata id is not a base field, so
      a type id equal to a base field would put a subdivision object in a
      base field. */
  ghost predicate SafeTypes(db: Database)
  {
    forall code | code in db.subdivisions :: SubdivisionTypeId(db.subdivisions[code].kind) !in BaseFieldIds
  }

  /** A derived value that may land on a base field: only a city name,
      which is a `str`. */
  predicate SafeEntry(k: string, v: Value)
  {
    k in BaseFieldIds ==> k == "city_name" && v.Str?
  }

  /** The derived values open with the country, and no later one lands
      on a base field other than the city name. */
  predicate SafeMeta(d: Ordered)
  {
    && |d| > 0 && d[0].0 == "country_code" && IsText(d[0].1)
    && forall i | 0 < i < |d| :: SafeEntry(d[i].0, d[i].1)
  }

  /** The only base field ending in "_name" is the city name. */
  lemma NameIsCity(id: string)
    ensures id + "_name" in BaseFieldIds ==> id + "_name" == "city_name"
  {
    var a := id + "_name";
    assert a[|a| - 2] == 'm';
  }

  /** No base field ends in "_type_name". */
  lemma TypeNameNotBase(id: string)
    ensures id + "_type_name" !in BaseFieldIds
  {
    var a := id + "_type_name";
    assert |a| >= 10 && a[|a| - 2] == 'm';
  }

  /** The metadata of a subdivision whose type id is not a base field is
      safe. */
  lemma MetadataEntriesSafe(sub: Subdivision)
    requires SubdivisionTypeId(sub.kind) !in BaseFieldIds
    ensures forall i | 0 <= i < |MetadataEntries(sub)| ::
      SafeEntry(MetadataEntries(sub)[i].0, MetadataEntries(sub)[i].1)
  {
    var id := SubdivisionTypeId(sub.kind);
    AreaCodeNotBase(id);
    NameIsCity(id);
    TypeNameNotBase(id);
  }

  lemma PutSafe(d: Ordered, k: string, v: Value)
    requires SafeMeta(d) && SafeEntry(k, v)
    ensures SafeMeta(Put(d, k, v)) && Put(d, k, v)[0] == d[0]
  {
    var r := Put(d, k, v);
    assert r[0] == d[0];
    forall i | 0 < i < |r| ensures SafeEntry(r[i].0, r[i].1) {
    }
  }

  lemma {:induction false} PutAllSafe(d: Ordered, e: Ordered)
    requires SafeMeta(d)
    requires forall i | 0 <= i < |e| :: SafeEntry(e[i].0, e[i].1)
    ensures SafeMeta(PutAll(d, e)) && PutAll(d, e)[0] == d[0]
    decreases |e|
  {
    if e != [] {
      PutSafe(d, e[0].0, e[0].1);
      assert forall i | 0 <= i < |e[1..]| :: e[1..][i] == e[i + 1];
      PutAllSafe(Put(d, e[0].0, e[0].1), e[1..]);
    }
  }

  /** Gathering over database subdivisions of safe types stays safe. */
  lemma {:induction false} GatherSafe(db: Database, acc: Ordered, parents: seq<Territory>, countryCode: string)
    requires SafeTypes(db) && SafeMeta(acc) && LinkedChain(db, parents, countryCode)
    ensures Gather(acc, parents).Ok? ==>
      SafeMeta(Gather(acc, parents).value) && Gather(acc, parents).value[0] == acc[0]
    decreases |parents|
  {
    if parents != [] {
      var sub := parents[0].subdivision;
      assert db.subdivisions[sub.code] == sub;
      SubdivisionMetadataSucceeds(sub);
      MetadataEntriesSafe(sub);
      PutAllSafe(acc, MetadataEntries(sub));
      assert LinkedChain(db, parents[1..], countryCode) by {
        assert forall i | 0 <= i < |parents[1..]| :: parents[1..][i] == parents[i + 1];
      }
      GatherSafe(db, PutAll(acc, MetadataEntries(sub)), parents[1..], countryCode);
    }
  }

  /** The derived values of any code are safe. */
  lemma ParentMetadataSafe(t: Tables, db: Database, code: string)
    requires WellFormed(t, db) && SafeTypes(db)
    ensures ParentMetadata(t, db, code).Ok? ==>
      && SafeMeta(ParentMetadata(t, db, code).value)
      && ParentMetadata(t, db, code).value[0].1 == OptionValue(CountryFromSubdivision(t, db, code))
  {
    var first := [("country_code", OptionValue(CountryFromSubdivision(t, db, code)))];
    var parents := ParentsSpec(t, db, code, false);
    if parents.Ok? {
      ParentsLinked(t, db, code);
      var c :| LinkedChain(db, parents.value, c);
      GatherSafe(db, first, parents.value, c);
    }
  }

  /** The parents of a code, without the country, are database
      subdivisions of one country, each the parent of the one before. */
  lemma ParentsLinked(t: Tables, db: Database, code: string)
    requires WellFormed(t, db)
    ensures ParentsSpec(t, db, code, false).Ok? ==>
      exists c :: LinkedChain(db, ParentsSpec(t, db, code, false).value, c)
  {
    var parents := ParentsSpec(t, db, code, false);
    if parents.Ok? {
      var aliased := Lookup(t.aliasToSubdivision, code);
      var normalized := NormalizeTerritoryCode(t, db, aliased, true, false).value;
      if normalized !in SupportedCountryCodes(t, db) && normalized in db.subdivisions {
        ChainLinked(t, db, normalized);
        assert LinkedChain(db, parents.value, db.subdivisions[normalized].countryCode);
      } else {
        assert parents.value == [];
        assert LinkedChain(db, parents.value, "");
      }
    }
  }

  /** Updating with entries that name no given key leaves it alone. */
  lemma {:induction false} OverlayUntouched(f: Fields, d: Ordered, k: string)
    requires forall i | 0 <= i < |d| :: d[i].0 != k
    ensures k in Overlay(f, d) <==> k in f
    ensures k in f ==> Overlay(f, d)[k] == f[k]
    decreases |d|
  {
    if d != [] {
      assert forall i | 0 <= i < |d[1..]| :: d[1..][i] == d[i + 1];
      OverlayUntouched(f[d[0].0 := d[0].1], d[1..], k);
    }
  }

  /** Updating with safe entries keeps the invariant. */
  lemma {:induction false} OverlayStored(f: Fields, d: Ordered)
    requires Stored(f)
    requires forall i | 0 <= i < |d| :: SafeEntry(d[i].0, d[i].1)
    ensures Stored(Overlay(f, d))
    decreases |d|
  {
    if d != [] {
      assert forall i | 0 <= i < |d[1..]| :: d[1..][i] == d[i + 1];
      OverlayStored(f[d[0].0 := d[0].1], d[1..]);
    }
  }

  /** Merging safe derived values keeps the invariant, sets the country to
      the derived one, and leaves the address lines, the postal code and
      the subdivision alone. */
  lemma OverlaySafe(f: Fields, d: Ordered)
    requires Stored(f) && SafeMeta(d)
    ensures var r := Overlay(f, d);
      && Stored(r)
      && r["country_code"] == d[0].1
      && r["line1"] == f["line1"] && r["line2"] == f["line2"]
      && r["postal_code"] == f["postal_code"] && r["subdivision_code"] == f["subdivision_code"]
  {
    var g := f["country_code" := d[0].1];
    var rest := d[1..];
    assert forall i | 0 <= i < |rest| :: rest[i] == d[i + 1];
    assert Overlay(f, d) == Overlay(g, rest);
    OverlayStored(g, rest);
    OverlayUntouched(g, rest, "country_code");
    OverlayUntouched(g, rest, "line1");
    OverlayUntouched(g, rest, "line2");
    OverlayUntouched(g, rest, "postal_code");
    OverlayUntouched(g, rest, "subdivision_code");
  }

  /** A field value after cleaning: unset, or a non-blank string with single
      inner spaces and no outer whitespace. */
  predicate TidyValue(v: Value)
  {
    v == Null || (v.Str? && v.s != "" && Tidy(v.s))
  }

  /** After the whitespace and blank steps every base field is tidy. */
  lemma CleanedFields(f: Fields)
    requires Stored(f)
    ensures forall k | k in BaseFieldIds :: TidyValue(BlankStep(CollapseStep(f))[k])
  {
    forall k | k in BaseFieldIds
      ensures TidyValue(BlankStep(CollapseStep(f))[k])
    {
      if f[k].Str? {
        CollapseSpacesSpec(f[k].s);
      }
    }
  }

  /** The code steps touch only the fields they are given. */
  lemma {:induction false} CodeStepsKeep(t: Tables, db: Database, f: Fields, ids: seq<string>, k: string)
    requires Stored(f) && forall i | 0 <= i < |ids| :: ids[i] in BaseFieldIds
    requires k in BaseFieldIds && k !in ids
    ensures CodeSteps(t, db, f, ids)[k] == f[k]
    decreases |ids|
  {
    if ids != [] {
      assert k !in ids[1..];
      CodeStepsKeep(t, db, CodeStep(t, db, f, ids[0]), ids[1..], k);
    }
  }

  /** Swapping the lines keeps tidy fields tidy and fills a missing first
      line. */
  lemma SwapTidy(b: Fields)
    requires Stored(b) && forall k | k in BaseFieldIds :: TidyValue(b[k])
    ensures var w := SwapStep(b);
      && (forall k | k in BaseFieldIds :: TidyValue(w[k]))
      && (Truthy(w["line2"]) ==> Truthy(w["line1"]))
  {
  }

  /** After the first five steps the address lines, the postal code and
      the city are tidy, and a second line implies a first. */
  lemma CodedLines(t: Tables, db: Database, f: Fields)
    requires Stored(f)
    ensures var g := Coded(t, db, f);
      && TidyValue(g["line1"]) && TidyValue(g["line2"])
      && TidyValue(g["postal_code"]) && TidyValue(g["city_name"])
      && (Truthy(g["line2"]) ==> Truthy(g["line1"]))
  {
    var b := BlankStep(CollapseStep(ScrubStep(f)));
    CleanedFields(ScrubStep(f));
    SwapTidy(b);
    var w := SwapStep(b);
    assert Coded(t, db, f) == CodeSteps(t, db, w, TerritoryFieldIds);
    CodeStepsKeep(t, db, w, TerritoryFieldIds, "line1");
    CodeStepsKeep(t, db, w, TerritoryFieldIds, "line2");
    CodeStepsKeep(t, db, w, TerritoryFieldIds, "postal_code");
    CodeStepsKeep(t, db, w, TerritoryFieldIds, "city_name");
  }

  /** The default step touches only the two territory fields. */
  lemma DefaultKeeps(t: Tables, g: Fields, k: string)
    requires Stored(g) && k in g && k != "country_code" && k != "subdivision_code"
    ensures k in DefaultStep(t, g) && DefaultStep(t, g)[k] == g[k]
  {
  }

  /** After the first six steps the address lines, the postal code and
      the city are tidy, and a second line implies a first. */
  lemma PreparedLines(t: Tables, db: Database, f: Fields)
    requires Stored(f)
    ensures var p := Prepared(t, db, f);
      && TidyValue(p["line1"]) && TidyValue(p["line2"])
      && TidyValue(p["postal_code"]) && TidyValue(p["city_name"])
      && (Truthy(p["line2"]) ==> Truthy(p["line1"]))
  {
    var g := Coded(t, db, f);
    CodedLines(t, db, f);
    DefaultKeeps(t, g, "line1");
    DefaultKeeps(t, g, "line2");
    DefaultKeeps(t, g, "postal_code");
    DefaultKeeps(t, g, "city_name");
  }

  /** The metadata step keeps the invariant and leaves the address lines,
      the postal code and the subdivision alone; when it does not fail
      after a set subdivision, the country is the one derived from it. */
  lemma MetadataStepKeeps(t: Tables, db: Database, p: Fields, strict: bool)
    requires WellFormed(t, db) && Stored(p) && SafeTypes(db)
    ensures var (r, failure) := MetadataStep(t, db, p, strict);
      && Stored(r)
      && r["line1"] == p["line1"] && r["line2"] == p["line2"]
      && r["postal_code"] == p["postal_code"] && r["subdivision_code"] == p["subdivision_code"]
      && (failure.None? && Truthy(p["subdivision_code"]) ==>
            r["country_code"] == OptionValue(CountryFromSubdivision(t, db, p["subdivision_code"].s)))
  {
    if Truthy(p["subdivision_code"]) {
      var code := p["subdivision_code"].s;
      ParentMetadataSafe(t, db, code);
      MergeKeeps(db, p, ParentMetadata(t, db, code), strict);
    }
  }

  /** Merging safe derived values keeps the invariant and the lines, and
      on success sets the country to the first derived value. */
  lemma MergeKeeps(db: Database, p: Fields, meta: Result<Ordered, Error>, strict: bool)
    requires Stored(p) && Truthy(p["subdivision_code"]) && (meta.Ok? ==> SafeMeta(meta.value))
    ensures var n := Merge(db, p, meta, strict);
      && Stored(n.0)
      && n.0["line1"] == p["line1"] && n.0["line2"] == p["line2"]
      && n.0["postal_code"] == p["postal_code"] && n.0["subdivision_code"] == p["subdivision_code"]
      && (n.1.None? ==> meta.Ok? && n.0["country_code"] == meta.value[0].1)
  {
    if meta.Ok? {
      OverlaySafe(p, meta.value);
    }
  }

  /** `normalize` keeps every base field a `str` or `None`; it leaves the
      address lines and the postal code tidy, and a second line implies a
      first. */
  lemma NormalizeLines(t: Tables, db: Database, f: Fields, strict: bool)
    requires WellFormed(t, db) && Stored(f) && SafeTypes(db)
    ensures var r := NormalizeSpec(t, db, f, strict).0;
      && Stored(r)
      && TidyValue(r["line1"]) && TidyValue(r["line2"]) && TidyValue(r["postal_code"])
      && (Truthy(r["line2"]) ==> Truthy(r["line1"]))
  {
    PreparedLines(t, db, f);
    MetadataStepKeeps(t, db, Prepared(t, db, f), strict);
  }

  /** After a normalize that does not fail, the subdivision the first six
      steps set is kept, and the country is the one derived from it. */
  lemma NormalizeDerivesCountry(t: Tables, db: Database, f: Fields, strict: bool, code: string)
    requires WellFormed(t, db) && Stored(f) && SafeTypes(db)
    requires Prepared(t, db, f)["subdivision_code"] == Str(code) && code != ""
    ensures var n := NormalizeSpec(t, db, f, strict);
      n.1.None? ==>
        && "subdivision_code" in n.0 && n.0["subdivision_code"] == Str(code)
        && "country_code" in n.0 && n.0["country_code"] == OptionValue(CountryFromSubdivision(t, db, code))
  {
    MetadataStepKeeps(t, db, Prepared(t, db, f), strict);
  }

  /** A set country without a subdivision adopts its only default
      subdivision; a normalize that does not fail then keeps it and derives
      the country from it. */
  lemma NormalizeAdoptsDefault(t: Tables, db: Database, f: Fields, strict: bool, s: string)
    requires WellFormed(t, db) && Stored(f) && SafeTypes(db)
    requires var g := Coded(t, db, f);
      && Truthy(g["country_code"]) && !Truthy(g["subdivision_code"])
      && DefaultCandidates(t, g["country_code"].s) == {s} && s != ""
    ensures var n := NormalizeSpec(t, db, f, strict);
      n.1.None? ==>
        && "subdivision_code" in n.0 && n.0["subdivision_code"] == Str(s)
        && "country_code" in n.0 && n.0["country_code"] == OptionValue(CountryFromSubdivision(t, db, s))
  {
    PreparedAdopts(t, db, f, s);
    NormalizeDerivesCountry(t, db, f, strict, s);
  }

  /** The first six steps adopt the single default subdivision. */
  lemma PreparedAdopts(t: Tables, db: Database, f: Fields, s: string)
    requires Stored(f)
    requires var g := Coded(t, db, f);
      && Truthy(g["country_code"]) && !Truthy(g["subdivision_code"])
      && DefaultCandidates(t, g["country_code"].s) == {s} && s != ""
    ensures Prepared(t, db, f)["subdivision_code"] == Str(s)
  {
    DefaultStepAdopts(t, Coded(t, db, f), s);
  }

  /** A set country without a subdivision and with a single default
      subdivision takes it and loses its own code. */
  lemma DefaultStepAdopts(t: Tables, g: Fields, s: string)
    requires Stored(g) && Truthy(g["country_code"]) && !Truthy(g["subdivision_code"])
    requires DefaultCandidates(t, g["country_code"].s) == {s} && s != ""
    ensures DefaultStep(t, g) == g["subdivision_code" := Str(s)]["country_code" := Null]
  {
    DefaultOfIs(t, g["country_code"].s, Some(s));
  }

  /** A set country without a subdivision and without a single default
      keeps its country and gets no subdivision. */
  lemma DefaultStepKeeps(t: Tables, f: Fields)
    requires Stored(f) && Truthy(f["country_code"]) && !Truthy(f["subdivision_code"])
    requires |DefaultCandidates(t, f["country_code"].s)| != 1
    ensures DefaultStep(t, f) == f["subdivision_code" := Null]
  {
  }

  /** The strict check reports an inconsistency on the first derived value
      that would replace a different, set base field: its report names that
      field with the subdivision, and nothing else. */
  lemma {:induction false} StrictCheckInvalid(db: Database, f: Fields, code: string, meta: Ordered, report: InvalidAddress)
    requires StrictCheck(db, f, code, meta) == Some(Invalid(report))
    ensures exists i | 0 <= i < |meta| :: InvalidEntry(f, meta[i].0, meta[i].1, report)
    decreases |meta|
  {
    if CheckEntry(db, f, code, meta[0].0, meta[0].1).Some? {
      CheckEntryInvalid(db, f, code, meta[0].0, meta[0].1, report);
    } else {
      var rest := meta[1..];
      StrictCheckInvalid(db, f, code, rest, report);
      var i :| 0 <= i < |rest| && InvalidEntry(f, rest[i].0, rest[i].1, report);
      assert meta[i + 1] == rest[i];
    }
  }

  /** A derived value `v` for `k` that the strict check rejects, with the
      report it raises: a set base field holding another value. */
  predicate InvalidEntry(f: Fields, k: string, v: Value, report: InvalidAddress)
  {
    && k in BaseFieldIds && Truthy(Get(f, k)) && Get(f, k) != v
    && report == InvalidAddress({}, map[], {(k, "subdivision_code")})
  }

  /** One rejected derived value. */
  lemma CheckEntryInvalid(db: Database, f: Fields, code: string, k: string, v: Value, report: InvalidAddress)
    requires CheckEntry(db, f, code, k, v) == Some(Invalid(report))
    ensures InvalidEntry(f, k, v, report)
  {
    SortedWithSubdivision(k);
  }

  /** A derived value the strict check accepts: it is set, and a set base
      field it would replace holds it already, or, for the country, holds
      the country of the database subdivision. */
  predicate Agrees(db: Database, f: Fields, code: string, k: string, v: Value)
  {
    && Truthy(v)
    && (Truthy(Get(f, k)) && k in BaseFieldIds ==>
          && (k == "country_code" ==> code in db.subdivisions)
          && (Get(f, k) == v || (k == "country_code" && Get(f, k) == Str(db.subdivisions[code].countryCode))))
  }

  /** The strict check passes exactly when it accepts every derived value. */
  lemma {:induction false} StrictCheckPasses(db: Database, f: Fields, code: string, meta: Ordered)
    ensures StrictCheck(db, f, code, meta).None? <==>
      forall i | 0 <= i < |meta| :: Agrees(db, f, code, meta[i].0, meta[i].1)
    decreases |meta|
  {
    if meta != [] {
      assert CheckEntry(db, f, code, meta[0].0, meta[0].1).None? <==> Agrees(db, f, code, meta[0].0, meta[0].1);
      StrictCheckPasses(db, f, code, meta[1..]);
      assert forall i | 0 <= i < |meta[1..]| :: meta[1..][i] == meta[i + 1];
    }
  }

  /** Non-strict mode never reports an `InvalidAddress`; strict mode fails
      wherever non-strict mode does, and where it does not fail it leaves
      the same fields. */
  lemma MergeModes(db: Database, p: Fields, meta: Result<Ordered, Error>)
    requires Stored(p) && Truthy(p["subdivision_code"])
    ensures var lax := Merge(db, p, meta, false);
      var strict := Merge(db, p, meta, true);
      && (lax.1.Some? ==> lax.1.value.Raised? && strict == lax)
      && (strict.1.None? ==> strict == lax)
  {
  }

  /** In strict mode an `InvalidAddress` names exactly one set base field
      that disagrees with a derived value, paired with the subdivision. */
  lemma MergeInvalid(db: Database, p: Fields, meta: Result<Ordered, Error>, report: InvalidAddress)
    requires Stored(p) && Truthy(p["subdivision_code"])
    requires Merge(db, p, meta, true).1 == Some(Invalid(report))
    ensures report.required == {} && report.invalid == map[]
    ensures exists k | k in BaseFieldIds :: report.inconsistent == {(k, "subdivision_code")} && Truthy(p[k])
  {
    StrictCheckInvalid(db, p, p["subdivision_code"].s, meta.value, report);
  }

  /** `normalize` in both modes: non-strict mode only raises, strict mode
      agrees with it except where it reports one inconsistent field. */
  lemma NormalizeModes(t: Tables, db: Database, f: Fields, report: InvalidAddress)
    requires WellFormed(t, db) && Stored(f)
    ensures var lax := NormalizeSpec(t, db, f, false);
      var strict := NormalizeSpec(t, db, f, true);
      && (lax.1.Some? ==> lax.1.value.Raised? && strict == lax)
      && (strict.1.None? ==> strict == lax)
      && (strict.1 == Some(Invalid(report)) ==>
            && report.required == {} && report.invalid == map[]
            && exists k | k in BaseFieldIds :: report.inconsistent == {(k, "subdivision_code")})
  {
    var p := Prepared(t, db, f);
    if Truthy(p["subdivision_code"]) {
      var meta := ParentMetadata(t, db, p["subdivision_code"].s);
      MergeModes(db, p, meta);
      if Merge(db, p, meta, true).1 == Some(Invalid(report)) {
        MergeInvalid(db, p, meta, report);
      }
    }
  }

  /** A territory field's code: a set code is cleaned and checked against
      the supported codes, and is cleared when it is not one of them;
      applying the step again changes nothing. */
  lemma CodeValueSpec(t: Tables, db: Database, v: Value)
    requires WellFormed(t, db)
    ensures v.Str? && v.s != "" ==>
      && (CodeValue(t, db, v) == Null <==> Clean(v.s) !in SupportedTerritoryCodes(t, db))
      && (CodeValue(t, db, v) != Null ==> CodeValue(t, db, v) == Str(NormalizeTerritoryCode(t, db, v.s, false, false).value))
    ensures !(v.Str? && v.s != "") ==> CodeValue(t, db, v) == v
    ensures CodeValue(t, db, CodeValue(t, db, v)) == CodeValue(t, db, v)
  {
    if v.Str? && v.s != "" {
      NormalizeFails(t, db, v.s, false, false);
      NormalizeIdempotent(t, db, v.s, false, false);
    }
  }

  /** Lower-case letters and digits are never slug separators. */
  lemma WordCharNotBreak(c: char)
    requires 'a' <= c <= 'z' || '0' <= c <= '9'
    ensures !IsSlugBreak(c)
  {
  }

  /** A text without separators is one token. */
  lemma {:induction false} OneToken(s: string)
    requires s != [] && forall i | 0 <= i < |s| :: !IsSlugBreak(s[i])
    ensures Tokens(s, IsSlugBreak) == [s]
  {
    assert !IsSlugBreak(s[0]);
    assert TokenPrefix(s, IsSlugBreak) == |s|;
    assert s[..|s|] == s && s[|s|..] == [];
  }

  /** The slug of "line1" is itself. */
  lemma Line1Slug()
    ensures Slugify("line1") == "line1"
  {
    var kind := "line1";
    forall i | 0 <= i < |kind| ensures !IsSlugBreak(kind[i]) {
      WordCharNotBreak(kind[i]);
    }
    OneToken(kind);
    assert Lower(kind) == kind;
  }

  /** The type "line1" is its own type id. */
  lemma Line1TypeId()
    ensures SubdivisionTypeId("line1") == "line1"
  {
    Line1Slug();
    assert UntilChar("line1", '_') == 5;
  }

  /** A single slug word that is neither "city" nor "municipality" is its
      own type id, lower-cased. */
  lemma WordTypeId(w: string)
    requires w != [] && forall i | 0 <= i < |w| :: !IsSlugBreak(w[i])
    requires |w| != 4 && |w| != 12
    ensures Slugify(w) == Lower(w) && SubdivisionTypeId(w) == Lower(w)
  {
    OneToken(w);
    assert Join("_", [w]) == w;
    assert IsSlugBreak('_');
    assert Without(Lower(w), '_');
    SplitOfPiece(Lower(w), '_');
  }

  /** A backslash does not break a slug word, so the type "City\\Town" has
      no "city" word and keeps its own slug as type id. */
  lemma BackslashKeepsWord(kind: string)
    requires kind == "City\\Town"
    ensures SubdivisionTypeId(kind) == "city\\town"
  {
    assert forall i | 0 <= i < |kind| :: !IsSlugBreak(kind[i]);
    WordTypeId(kind);
    assert Lower(kind) == "city\\town";
  }

  /** Merging the metadata of a subdivision whose type id is "line1" puts
      the subdivision itself in the first address line. */
  lemma Line1Overlay(sub: Subdivision, f: Fields)
    requires SubdivisionTypeId(sub.kind) == "line1"
    ensures var r := Overlay(f, MetadataEntries(sub));
      "line1" in r && r["line1"] == Entity(sub)
  {
    var id := SubdivisionTypeId(sub.kind);
    AreaCodeNotBase(id);
    NameIsCity(id);
    TypeNameNotBase(id);
    var d := MetadataEntries(sub);
    assert d[0] == ("line1", Entity(sub));
    assert d[1].0 != "line1" && d[2].0 != "line1" && d[3].0 != "line1";
    OverlayFirst(f, d, "line1");
  }

  /** The first entry of a merge wins when no later entry has its key. */
  lemma OverlayFirst(f: Fields, d: Ordered, k: string)
    requires d != [] && d[0].0 == k
    requires forall i | 1 <= i < |d| :: d[i].0 != k
    ensures k in Overlay(f, d) && Overlay(f, d)[k] == d[0].1
  {
    var rest := d[1..];
    assert forall i | 0 <= i < |rest| :: rest[i] == d[i + 1];
    OverlayUntouched(f[k := d[0].1], rest, k);
  }

  /** The collision check of `subdivision_metadata` never fires, since an
      "_area_code" id is never a base field: a subdivision of type "line1"
      has a base field as its type id, yet its metadata is produced, and
      merging it breaks the store's invariant. */
  lemma TypeIdCollision(sub: Subdivision, f: Fields)
    requires sub.kind == "line1"
    ensures SubdivisionTypeId(sub.kind) in BaseFieldIds
    ensures SubdivisionMetadata(sub).Ok?
    ensures var r := Overlay(f, SubdivisionMetadata(sub).value);
      "line1" in r && r["line1"] == Entity(sub) && !Stored(r)
  {
    Line1TypeId();
    SubdivisionMetadataSucceeds(sub);
    Line1Overlay(sub, f);
  }

  /** The check `subdivision_metadata` evidently means: no metadata id
      outside the whitelist is a base field. */
  function CheckedMetadata(sub: Subdivision): (r: Result<Ordered, Error>)
  {
    var id := SubdivisionTypeId(sub.kind);
    if (MetadataIds(id) - MetadataWhitelist) * BaseFieldIds != {} then Err(AssertionError)
    else Ok(MetadataEntries(sub))
  }

  /** The corrected check fails exactly on a type id that is a base field
      outside the whitelist; when it passes, only a whitelisted base field
      is overwritten, and it agrees with the check as written. */
  lemma CheckedMetadataSpec(sub: Subdivision)
    ensures var id := SubdivisionTypeId(sub.kind);
      CheckedMetadata(sub).Err? <==> id in BaseFieldIds - MetadataWhitelist
    ensures var r := CheckedMetadata(sub);
      r.Ok? ==> forall i | 0 <= i < |r.value| :: r.value[i].0 in BaseFieldIds ==> r.value[i].0 in MetadataWhitelist
    ensures CheckedMetadata(sub).Ok? ==> CheckedMetadata(sub) == SubdivisionMetadata(sub)
  {
    var id := SubdivisionTypeId(sub.kind);
    AreaCodeNotBase(id);
    NameIsCity(id);
    TypeNameNotBase(id);
    SubdivisionMetadataSucceeds(sub);
    assert (MetadataIds(id) - MetadataWhitelist) * BaseFieldIds == ({id} - MetadataWhitelist) * BaseFieldIds;
  }

  // ----------------------------------------------------------------------
  // What `validate`, `empty` and `render` guarantee
  // ----------------------------------------------------------------------

  /** An address is valid exactly when its required fields are set, its
      country is in the database, and a set subdivision is in the database
      and belongs to that country. */
  lemma ValidMeans(t: Tables, db: Database, f: Fields)
    requires Stored(f)
    ensures ValidateSpec(t, db, f).None? <==>
      && (forall k | k in RequiredFieldIds :: Truthy(f[k]))
      && f["country_code"].Str? && f["country_code"].s in db.countries
      && (Truthy(f["subdivision_code"]) ==>
            && f["subdivision_code"].s in db.subdivisions
            && CountryFromSubdivision(t, db, f["subdivision_code"].s) == Some(f["country_code"].s))
  {
    var required := RequiredOf(f);
    if required == {} {
      forall k | k in RequiredFieldIds ensures Truthy(f[k]) {
        assert k !in required;
      }
      var invalid := InvalidOf(db, f, required);
      var country := f["country_code"];
      var subdivision := f["subdivision_code"];
      assert !(country.Str? && country.s in db.countries) ==> "country_code" in invalid;
      assert Truthy(subdivision) && subdivision.s !in db.subdivisions ==> "subdivision_code" in invalid;
    } else {
      var k :| k in required;
      assert !Truthy(f[k]);
    }
  }

  /** A field is reported at most once: the invalid ones are the country
      and the subdivision holding their own values, never a missing field;
      the inconsistent pair is reported only when neither member is. */
  lemma ValidateReports(t: Tables, db: Database, f: Fields)
    requires Stored(f)
    ensures var r := ValidateSpec(t, db, f);
      r.Some? ==>
        && r.value.required <= RequiredFieldIds
        && (forall k | k in r.value.required :: !Truthy(f[k]))
        && (forall k | k in r.value.invalid ::
              && (k == "country_code" || k == "subdivision_code")
              && r.value.invalid[k] == f[k] && k !in r.value.required)
        && (r.value.inconsistent != {} ==>
              && r.value.inconsistent == {("country_code", "subdivision_code")}
              && "country_code" !in r.value.required + r.value.invalid.Keys
              && "subdivision_code" !in r.value.required + r.value.invalid.Keys)
  {
  }

  /** An empty address reports every required field as missing, and
      nothing else. */
  lemma EmptyNotValid(t: Tables, db: Database, f: Fields)
    requires Stored(f) && IsEmpty(f)
    ensures ValidateSpec(t, db, f) == Some(InvalidAddress(RequiredFieldIds, map[], {}))
  {
    assert RequiredOf(f) == RequiredFieldIds;
  }

  /** An empty address renders no line. */
  lemma EmptyRendersNothing(db: Database, f: Fields)
    requires Stored(f) && IsEmpty(f)
    ensures RenderLines(db, f).Ok? ==> RenderLines(db, f).value == []
  {
    if "state_name" in f && f["state_name"].Str? {
      assert Join(", ", [f["state_name"].s]) == "";
    }
  }

  /** Every rendered line is non-empty; the first line is the first address
      line when it is set, and the last is the country name when it is
      known. */
  lemma RenderLinesShape(db: Database, f: Fields)
    requires Stored(f)
    ensures var r := RenderLines(db, f);
      r.Ok? ==>
        && (forall i | 0 <= i < |r.value| :: r.value[i] != "")
        && (Truthy(f["line1"]) ==> r.value[0] == f["line1"].s)
        && (CountryName(db, f).Some? && CountryName(db, f).value != "" ==>
              r.value[|r.value| - 1] == CountryName(db, f).value)
  {
  }

  /** The rendered block does not depend on the case of the stored codes:
      an address whose codes were set in lower case through `__setitem__`
      renders as the one holding them upper-cased. */
  lemma RenderIgnoresCase(db: Database, f: Fields, country: string, subdivision: string)
    requires Stored(f) && f["country_code"] == Str(country) && f["subdivision_code"] == Str(subdivision)
    ensures var g := f["country_code" := Str(Upper(country))]["subdivision_code" := Str(Upper(subdivision))];
      && Stored(g)
      && CountryName(db, g) == CountryName(db, f)
      && SubdivisionName(db, g) == SubdivisionName(db, f)
      && RenderLines(db, g) == RenderLines(db, f)
  {
    var g := f["country_code" := Str(Upper(country))]["subdivision_code" := Str(Upper(subdivision))];
    UpperIdempotent(country);
    UpperIdempotent(subdivision);
    assert forall k | k != "country_code" && k != "subdivision_code" && k in f :: g[k] == f[k];
    assert ThirdLine(g) == ThirdLine(f);
  }

  /** The third line keeps a lone postal code's dash: with no city and no
      state name it reads "POSTAL - ". */
  lemma PostalCodeAlone(f: Fields)
    requires Stored(f) && Truthy(f["postal_code"]) && !Truthy(f["city_name"]) && "state_name" !in f
    ensures ThirdLine(f) == Ok(f["postal_code"].s + " - ")
  {
    var none: seq<string> := [];
    assert none + none == none;
    assert Join(", ", none) == "";
    assert f["postal_code"].s + " - " + "" == f["postal_code"].s + " - ";
  }

  /** The subdivision name gets a line of its own, just before the
      country line, exactly when it differs from the city, the state name
      and the country name; otherwise the block is the one the address
      renders with no subdivision at all. */
  lemma SubdivisionLine(db: Database, f: Fields)
    requires Stored(f) && RenderLines(db, f).Ok?
    ensures var g := f["subdivision_code" := Null];
      && Stored(g) && RenderLines(db, g).Ok?
      && var lines, base := RenderLines(db, f).value, RenderLines(db, g).value;
      && (!SubdivisionShown(db, f) <==> lines == base)
      && (SubdivisionShown(db, f) <==> |lines| == |base| + 1)
      && (SubdivisionShown(db, f) ==>
            var k := |base| - |CountryLine(db, f)|;
            0 <= k <= |base| && lines == base[..k] + [SubdivisionName(db, f).value] + base[k..])
  {
    SubdivisionLineSplit(db, f);
    var g := f["subdivision_code" := Null];
    var lines, base := RenderLines(db, f).value, RenderLines(db, g).value;
    var k := |base| - |CountryLine(db, f)|;
    var sub := if SubdivisionShown(db, f) then [SubdivisionName(db, f).value] else [];
    assert lines == base[..k] + sub + base[k..];
    assert |lines| == |base| + |sub|;
    if !SubdivisionShown(db, f) {
      assert base[..k] + base[k..] == base;
    }
  }

  /** The lines of an address are those it renders with no subdivision,
      with the subdivision line, if any, in front of the country line. */
  lemma SubdivisionLineSplit(db: Database, f: Fields)
    requires Stored(f) && RenderLines(db, f).Ok?
    ensures var g := f["subdivision_code" := Null];
      && Stored(g) && RenderLines(db, g).Ok?
      && var base := RenderLines(db, g).value;
      && |CountryLine(db, f)| <= |base|
      && var k := |base| - |CountryLine(db, f)|;
      && var sub := if SubdivisionShown(db, f) then [SubdivisionName(db, f).value] else [];
      && RenderLines(db, f).value == base[..k] + sub + base[k..]
  {
    var g := f["subdivision_code" := Null];
    NoSubdivision(db, f);
    var line3 := ThirdLine(f).value;
    var upper, sub := StreetLines(f, line3), if SubdivisionShown(db, f) then [SubdivisionName(db, f).value] else [];
    assert RenderLines(db, f).value == upper + sub + CountryLine(db, f);
    var base := RenderLines(db, g).value;
    assert base == upper + CountryLine(db, f);
    assert base[..|upper|] == upper && base[|upper|..] == CountryLine(db, f);
  }

  /** Clearing the subdivision code changes neither the street lines nor
      the country line, and leaves no subdivision line. */
  lemma NoSubdivision(db: Database, f: Fields)
    requires Stored(f) && RenderLines(db, f).Ok?
    ensures var g := f["subdivision_code" := Null];
      && Stored(g) && !SubdivisionShown(db, g)
      && CountryLine(db, g) == CountryLine(db, f)
      && ThirdLine(g) == ThirdLine(f)
      && StreetLines(g, ThirdLine(f).value) == StreetLines(f, ThirdLine(f).value)
  {
    var g := f["subdivision_code" := Null];
    assert g["line1"] == f["line1"] && g["line2"] == f["line2"];
  }

  /** With a separator character that no line holds, splitting the block
      gives back its lines. */
  lemma RenderSplits(db: Database, f: Fields, c: char)
    requires Stored(f) && RenderLines(db, f).Ok? && RenderLines(db, f).value != []
    requires forall i | 0 <= i < |RenderLines(db, f).value| :: Without(RenderLines(db, f).value[i], c)
    ensures SplitOn(RenderSpec(db, f, [c]).value, c) == RenderLines(db, f).value
  {
    SplitJoin(RenderLines(db, f).value, c);
  }
}
