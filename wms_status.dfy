/** The status classification of the newer revision (wms_service): every
    create and update derives a location's `status` from its `material_id`,
    and normalises a blank `material_id` to NULL. */
module WmsStatus {
  import opened Common

  const Disabled := "disabled"
  const Active := "active"
  const Empty := "empty"

  /** The reserved material ids that mark a location as unusable. */
  predicate IsDisabledMarker(m: string)
  {
    m == "-99" || m == "-1"
  }

  /** Python's `str.isspace` for one character: the characters `str.strip()`
      removes when called without arguments. */
  predicate IsSpace(c: char)
  {
    var n := c as int;
    || n == 0x20 || 0x09 <= n <= 0x0D || 0x1C <= n <= 0x1F
    || n == 0x85 || n == 0xA0 || n == 0x1680 || 0x2000 <= n <= 0x200A
    || n == 0x2028 || n == 0x2029 || n == 0x202F || n == 0x205F || n == 0x3000
  }

  /** `s.lstrip()`: the longest suffix of `s` that does not start with whitespace. */
  function StripLeading(s: string): (r: string)
    ensures |r| <= |s| && r == s[|s| - |r|..]
    ensures r == [] || !IsSpace(r[0])
    ensures forall i :: 0 <= i < |s| - |r| ==> IsSpace(s[i])
  {
    if s != [] && IsSpace(s[0]) then StripLeading(s[1..]) else s
  }

  /** `s.rstrip()`: the longest prefix of `s` that does not end with whitespace. */
  function StripTrailing(s: string): (r: string)
    ensures |r| <= |s| && r == s[..|r|]
    ensures r == [] || !IsSpace(r[|r| - 1])
    ensures forall i :: |r| <= i < |s| ==> IsSpace(s[i])
  {
    if s != [] && IsSpace(s[|s| - 1]) then StripTrailing(s[..|s| - 1]) else s
  }

  /** `s.strip()`. */
  function Strip(s: string): string
  {
    StripTrailing(StripLeading(s))
  }

  /** Python's `not (s and s.strip())`: the string holds no material id. */
  predicate IsBlank(s: string)
  {
    Strip(s) == []
  }

  /** Stripping leaves nothing exactly when every character is whitespace. */
  lemma BlankIffAllSpace(s: string)
    ensures IsBlank(s) <==> forall i :: 0 <= i < |s| ==> IsSpace(s[i])
  {
    var l := StripLeading(s);
    if !IsBlank(s) {
      var r := StripTrailing(l);
      assert r[0] == s[|s| - |l|];
    }
  }

  /** A stored material id is well formed: NULL, or a non-blank string. */
  predicate IsNormalMaterial(m: Option<string>)
  {
    m.None? || !IsBlank(m.value)
  }

  /** The outcome of classifying a material id: the status it implies and the
      material id to store. */
  datatype Classification = Classification(status: string, materialId: Option<string>)

  /** The classification of wms_service/crud.py:19-25 and 53-59. */
  function Classify(m: Option<string>): (r: Classification)
    ensures r.status == Empty <==> r.materialId.None?
    ensures r.materialId.Some? ==> r.materialId == m
    ensures IsNormalMaterial(r.materialId)
  {
    if m.Some? && IsDisabledMarker(m.value) then Classification(Disabled, m)
    else if m.Some? && !IsBlank(m.value) then Classification(Active, m)
    else Classification(Empty, None)
  }

  /** The three outcomes of the classification, each stated as an
      if-and-only-if over the characters of the material id. */
  lemma ClassifyCases(m: Option<string>)
    ensures Classify(m).status == Disabled <==> m.Some? && IsDisabledMarker(m.value)
    ensures Classify(m).status == Active
        <==> m.Some? && !IsDisabledMarker(m.value) && exists i :: 0 <= i < |m.value| && !IsSpace(m.value[i])
    ensures Classify(m).status == Empty
        <==> m.None? || forall i :: 0 <= i < |m.value| ==> IsSpace(m.value[i])
    ensures Classify(m).status in {Disabled, Active, Empty}
  {
    if m.Some? {
      BlankIffAllSpace(m.value);
      if IsDisabledMarker(m.value) {
        assert !IsSpace(m.value[0]);
      }
    }
  }

  /** Classifying an already classified material id changes nothing: the
      normalisation is idempotent, so a record passes through any number of
      updates without drifting. */
  lemma ClassifyIdempotent(m: Option<string>)
    ensures Classify(Classify(m).materialId) == Classify(m)
  {
  }
}
