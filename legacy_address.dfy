// The legacy `Address` class of the root `address.py`: six optional text
// fields, rendered as a block and validated against four required ones.

module LegacyAddress {
  import opened Common
  import opened Text

  /** A field is set when it holds a non-empty text. */
  predicate IsSet(v: Option<string>)
  {
    v.Some? && v.value != ""
  }

  /** The six fields of an address, as values. */
  datatype LegacyFields = LegacyFields(
    line1: Option<string>, line2: Option<string>, zipCode: Option<string>,
    state: Option<string>, city: Option<string>, country: Option<string>)

  /** The fields `validate` checks, in the order it checks them. */
  const RequiredFields: seq<string> := ["line1", "zip_code", "city", "country"]

  /** `getattr(address, id)` for the fields `validate` names. */
  function Field(f: LegacyFields, id: string): Option<string>
  {
    match id
    case "line1" => f.line1
    case "line2" => f.line2
    case "zip_code" => f.zipCode
    case "state" => f.state
    case "city" => f.city
    case "country" => f.country
    case _ => None
  }

  /** A line for a field, when it is set. */
  function LineOf(v: Option<string>): seq<string>
  {
    if IsSet(v) then [v.value] else []
  }

  /** The third line: the city and the state joined by a comma, after the
      zip code and a dash. */
  function ThirdLine(f: LegacyFields): string
  {
    var place := Join(", ", LineOf(f.city) + LineOf(f.state));
    if IsSet(f.zipCode) then f.zipCode.value + " - " + place else place
  }

  /** The lines of the block `render` joins. */
  function RenderLines(f: LegacyFields): seq<string>
  {
    var line3 := ThirdLine(f);
    LineOf(f.line1) + LineOf(f.line2) + (if line3 != "" then [line3] else []) + LineOf(f.country)
  }

  /** The first of `ids` whose field is not set. */
  function FirstUnset(f: LegacyFields, ids: seq<string>): Option<string>
    decreases |ids|
  {
    if ids == [] then None
    else if !IsSet(Field(f, ids[0])) then Some(ids[0])
    else FirstUnset(f, ids[1..])
  }

  /** `validate`: the `ValueError` it raises, if any. */
  function ValidateSpec(f: LegacyFields): Option<Error>
  {
    match FirstUnset(f, RequiredFields)
    case None => None
    case Some(id) => Some(ValueError("Address requires " + id + "."))
  }

  /** `empty`: no field is set. */
  predicate IsEmpty(f: LegacyFields)
  {
    !IsSet(f.line1) && !IsSet(f.line2) && !IsSet(f.zipCode)
    && !IsSet(f.state) && !IsSet(f.city) && !IsSet(f.country)
  }

  /** `Address`: six fields set by the constructor. */
  class Address {
    var line1: Option<string>
    var line2: Option<string>
    var zipCode: Option<string>
    var state: Option<string>
    var city: Option<string>
    var country: Option<string>

    /** The fields, as values. */
    function Fields(): LegacyFields
      reads this
    {
      LegacyFields(line1, line2, zipCode, state, city, country)
    }

    /** `__init__`: each field holds its argument. */
    constructor (line1: Option<string>, line2: Option<string>, zipCode: Option<string>,
                 state: Option<string>, city: Option<string>, country: Option<string>)
      ensures Fields() == LegacyFields(line1, line2, zipCode, state, city, country)
    {
      this.line1 := line1;
      this.line2 := line2;
      this.zipCode := zipCode;
      this.state := state;
      this.city := city;
      this.country := country;
    }

    /** `render`: the lines are appended one by one, then joined. */
    method Render(separator: string) returns (block: string)
      ensures block == Join(separator, RenderLines(Fields()))
    {
      var lines: seq<string> := [];
      if IsSet(line1) {
        lines := lines + [line1.value];
      }
      if IsSet(line2) {
        lines := lines + [line2.value];
      }
      assert lines == LineOf(line1) + LineOf(line2);
      var elements: seq<string> := [];
      if IsSet(city) {
        elements := elements + [city.value];
      }
      if IsSet(state) {
        elements := elements + [state.value];
      }
      assert elements == LineOf(city) + LineOf(state);
      var line3 := Join(", ", elements);
      if IsSet(zipCode) {
        var parts := [zipCode.value, line3];
        assert Join(" - ", parts) == parts[0] + " - " + Join(" - ", parts[1..]);
        assert parts[1..] == [line3];
        line3 := Join(" - ", parts);
      }
      assert line3 == ThirdLine(Fields());
      if line3 != "" {
        lines := lines + [line3];
      }
      assert lines == LineOf(line1) + LineOf(line2) + (if line3 != "" then [line3] else []);
      ghost var upper := lines;
      if IsSet(country) {
        lines := lines + [country.value];
      }
      assert lines == upper + LineOf(country);
      block := Join(separator, lines);
    }

    /** `validate`: a loop over the required fields that stops at the first
        unset one. */
    method Validate() returns (error: Option<Error>)
      ensures error == ValidateSpec(Fields())
    {
      var i := 0;
      while i < |RequiredFields|
        invariant 0 <= i <= |RequiredFields|
        invariant FirstUnset(Fields(), RequiredFields) == FirstUnset(Fields(), RequiredFields[i..])
      {
        var id := RequiredFields[i];
        assert RequiredFields[i..][1..] == RequiredFields[i + 1..];
        if !IsSet(Field(Fields(), id)) {
          return Some(ValueError("Address requires " + id + "."));
        }
        i := i + 1;
      }
      return None;
    }

    /** `valid`: whether `validate` passes. */
    method Valid() returns (valid: bool)
      ensures valid <==> ValidateSpec(Fields()).None?
    {
      var error := Validate();
      valid := error.None?;
    }

    /** `empty`. */
    method Empty() returns (empty: bool)
      ensures empty <==> IsEmpty(Fields())
    {
      if IsSet(line1) || IsSet(line2) || IsSet(zipCode) || IsSet(state) || IsSet(city) || IsSet(country) {
        return false;
      }
      return true;
    }
  }

  /** `validate` passes exactly when the first line, the zip code, the city
      and the country are set. */
  lemma ValidMeans(f: LegacyFields)
    ensures ValidateSpec(f).None? <==>
      IsSet(f.line1) && IsSet(f.zipCode) && IsSet(f.city) && IsSet(f.country)
  {
    assert RequiredFields[1..][1..][1..][1..] == [];
  }

  /** `validate` names the first unset required field, in the order
      line1, zip_code, city, country. */
  lemma {:induction false} FirstUnsetIsFirst(f: LegacyFields, ids: seq<string>)
    ensures var r := FirstUnset(f, ids);
      && (r.None? <==> forall i | 0 <= i < |ids| :: IsSet(Field(f, ids[i])))
      && (r.Some? ==> exists i | 0 <= i < |ids| ::
            && ids[i] == r.value && !IsSet(Field(f, ids[i]))
            && forall j | 0 <= j < i :: IsSet(Field(f, ids[j])))
    decreases |ids|
  {
    if ids != [] && IsSet(Field(f, ids[0])) {
      FirstUnsetIsFirst(f, ids[1..]);
      var r := FirstUnset(f, ids);
      assert forall i | 0 <= i < |ids[1..]| :: ids[1..][i] == ids[i + 1];
      if r.Some? {
        var i :| 0 <= i < |ids[1..]| && ids[1..][i] == r.value && !IsSet(Field(f, ids[1..][i]))
          && forall j | 0 <= j < i :: IsSet(Field(f, ids[1..][j]));
        assert ids[i + 1] == r.value;
      }
    } else if ids != [] {
      assert ids[0] == FirstUnset(f, ids).value;
    }
  }

  /** Every rendered line is non-empty. */
  lemma RenderLinesSet(f: LegacyFields)
    ensures forall i | 0 <= i < |RenderLines(f)| :: RenderLines(f)[i] != ""
  {
  }

  /** A joined block of non-empty lines is empty only when there is no
      line. */
  lemma {:induction false} JoinEmpty(separator: string, lines: seq<string>)
    requires forall i | 0 <= i < |lines| :: lines[i] != ""
    ensures Join(separator, lines) == "" <==> lines == []
    decreases |lines|
  {
    if |lines| > 1 {
      assert |Join(separator, lines)| >= |lines[0]|;
    }
  }

  /** The block is empty exactly when no field is set. */
  lemma RenderEmpty(f: LegacyFields, separator: string)
    ensures Join(separator, RenderLines(f)) == "" <==> IsEmpty(f)
  {
    RenderLinesSet(f);
    JoinEmpty(separator, RenderLines(f));
    if IsSet(f.city) || IsSet(f.state) {
      JoinEmpty(", ", LineOf(f.city) + LineOf(f.state));
    }
  }

  /** An empty address is not valid: its first line is missing. */
  lemma EmptyNotValid(f: LegacyFields)
    requires IsEmpty(f)
    ensures ValidateSpec(f) == Some(ValueError("Address requires line1."))
  {
    assert RequiredFields[0] == "line1";
    assert Field(f, "line1") == f.line1;
    assert FirstUnset(f, RequiredFields) == Some("line1");
    assert "Address requires " + "line1" + "." == "Address requires line1.";
  }
}
