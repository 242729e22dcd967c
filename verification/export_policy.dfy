/**
 * The pure decisions of the anatomy exporter: when a model is decimated, when
 * its normals are hidden from the decimator, when an output is rejected as
 * empty, how atlas mesh names are shortened, and which scale and root matrix
 * the glTF document receives.
 */
module ExportPolicy {
  import opened Wrappers

  /** Models with fewer points than this are never decimated. */
  const MinPointsToDecimate: nat := 50

  /**
   * The parts of a model's polydata the exporter looks at: the point count,
   * the four cell arrays, the point normals array (by identity) and whether
   * texture coordinates are present.
   */
  datatype Mesh = Mesh(points: nat, verts: nat, lines: nat, polys: nat, strips: nat,
                       normals: Option<nat>, tcoords: bool)

  /** Number of cells of any kind. */
  function NumberOfCells(m: Mesh): nat
  {
    m.verts + m.lines + m.polys + m.strips
  }

  /** Decimation is skipped for a zero factor, small models and models with lines or vertices. */
  predicate SkipDecimation(factor: real, m: Mesh)
  {
    factor == 0.0 || m.points < MinPointsToDecimate || m.lines > 0 || m.verts > 0
  }

  /** Strips with normals but no texture coordinates: the normals are hidden from the decimator. */
  predicate NeedsNormalsWorkaround(m: Mesh)
  {
    m.strips > 0 && m.normals.Some? && !m.tcoords
  }

  /** What the decimation step does with one model. */
  datatype DecimationRun = CopyInput | RunDecimator(input: Mesh, factor: real)

  /**
   * `factor` is the logic's current reduction factor, `nodeFactor` the factor
   * stored in the decimation parameter node that runs the decimator.
   */
  function Decimation(factor: real, nodeFactor: real, m: Mesh): (d: DecimationRun)
    ensures d.RunDecimator? ==> d.factor == nodeFactor
  {
    if SkipDecimation(factor, m) then CopyInput
    else if NeedsNormalsWorkaround(m) then RunDecimator(m.(normals := None), nodeFactor)
    else RunDecimator(m, nodeFactor)
  }

  /**
   * The model is copied unchanged exactly when the factor is zero, it has fewer
   * than 50 points, or it has line or vertex cells; otherwise the decimator runs
   * on the model itself, with its normals removed exactly when it has strips and
   * normals but no texture coordinates.
   */
  lemma DecimationSpec(factor: real, nodeFactor: real, m: Mesh)
    ensures Decimation(factor, nodeFactor, m).CopyInput? <==>
      (factor == 0.0 || m.points < 50 || m.lines > 0 || m.verts > 0)
    ensures Decimation(factor, nodeFactor, m).RunDecimator? ==>
      var input := Decimation(factor, nodeFactor, m).input;
      && input.(normals := m.normals) == m
      && input.normals == (if m.strips > 0 && !m.tcoords then None else m.normals)
  {
  }

  /** An output with no points or no cells is not exported. */
  predicate IsEmptyModel(m: Mesh)
  {
    m.points == 0 || NumberOfCells(m) == 0
  }

  // ---------------------------------------------------------------------------
  // Mesh names

  const ModelPrefix: string := "Model_"

  predicate IsDigit(c: char)
  {
    '0' <= c <= '9'
  }

  /** Length of the run of decimal digits at the start of `s`. */
  function DigitRun(s: string): (n: nat)
    ensures n <= |s|
    ensures forall k | 0 <= k < n :: IsDigit(s[k])
    ensures n < |s| ==> !IsDigit(s[n])
  {
    if s == [] || !IsDigit(s[0]) then 0 else 1 + DigitRun(s[1..])
  }

  /** The characters of `s` before its first line break. */
  function LineHead(s: string): (h: string)
    ensures |h| <= |s| && h == s[..|h|]
    ensures '\n' !in h
    ensures |h| < |s| ==> s[|h|] == '\n'
  {
    if s == [] || s[0] == '\n' then [] else [s[0]] + LineHead(s[1..])
  }

  /**
   * Python's `re.match(r'^Model_[0-9]+_(.+)', name)`: the captured group, if
   * the name matches. The digit run cannot give back a digit to `_`, so it is
   * the whole leading run; `.+` is greedy and stops only at a line break.
   */
  function MatchModelPrefix(name: string): Option<string>
  {
    if |name| < |ModelPrefix| || name[..|ModelPrefix|] != ModelPrefix then None
    else
      var rest := name[|ModelPrefix|..];
      var d := DigitRun(rest);
      if d == 0 || d == |rest| || rest[d] != '_' then None
      else
        var group := LineHead(rest[d + 1..]);
        if group == [] then None else Some(group)
  }

  /**
   * `name` is "Model_", a nonempty digit string, "_", a nonempty group without
   * line breaks, and then nothing or a line break followed by anything.
   */
  ghost predicate RegexMatches(name: string, digits: string, group: string, tail: string)
  {
    && name == ModelPrefix + digits + "_" + group + tail
    && |digits| > 0 && (forall k | 0 <= k < |digits| :: IsDigit(digits[k]))
    && |group| > 0 && '\n' !in group
    && (tail == [] || tail[0] == '\n')
  }

  /** Every group MatchModelPrefix captures comes from a match of the pattern. */
  lemma MatchModelPrefixSound(name: string) returns (digits: string, tail: string)
    requires MatchModelPrefix(name).Some?
    ensures RegexMatches(name, digits, MatchModelPrefix(name).value, tail)
  {
    var rest := name[|ModelPrefix|..];
    var d := DigitRun(rest);
    var group := MatchModelPrefix(name).value;
    var after := rest[d + 1..];
    digits := rest[..d];
    tail := after[|group|..];
    assert after == group + tail;
    assert rest == digits + ("_" + after) by {
      assert rest == rest[..d] + rest[d..];
      assert rest[d..] == [rest[d]] + after;
    }
    assert name == ModelPrefix + rest by {
      assert name == name[..|ModelPrefix|] + name[|ModelPrefix|..];
    }
    AssociateName(name, digits, group, tail, after, rest);
  }

  lemma AssociateName(name: string, digits: string, group: string, tail: string, after: string, rest: string)
    requires after == group + tail
    requires rest == digits + ("_" + after)
    requires name == ModelPrefix + rest
    ensures name == ModelPrefix + digits + "_" + group + tail
  {
  }

  /** Every match of the pattern is found, with the same group: the match is unique. */
  lemma MatchModelPrefixComplete(name: string, digits: string, group: string, tail: string)
    requires RegexMatches(name, digits, group, tail)
    ensures MatchModelPrefix(name) == Some(group)
  {
    var rest := digits + "_" + group + tail;
    assert name[..|ModelPrefix|] == ModelPrefix;
    assert name[|ModelPrefix|..] == rest;
    DigitRunOfDigits(digits, "_" + group + tail);
    assert rest[|digits|] == '_';
    assert rest[|digits| + 1..] == group + tail;
    LineHeadOf(group, tail);
  }

  lemma {:induction false} DigitRunOfDigits(digits: string, s: string)
    requires forall k | 0 <= k < |digits| :: IsDigit(digits[k])
    requires s != [] && !IsDigit(s[0])
    ensures DigitRun(digits + s) == |digits|
  {
    if digits != [] {
      assert (digits + s)[1..] == digits[1..] + s;
      DigitRunOfDigits(digits[1..], s);
    } else {
      assert digits + s == s;
    }
  }

  lemma {:induction false} LineHeadOf(group: string, tail: string)
    requires '\n' !in group
    requires tail == [] || tail[0] == '\n'
    ensures LineHead(group + tail) == group
  {
    if group != [] {
      assert (group + tail)[1..] == group[1..] + tail;
      assert (group + tail)[0] == group[0];
      LineHeadOf(group[1..], tail);
    } else {
      assert group + tail == tail;
    }
  }

  /** Python's `s.replace('_', ' ')`. */
  function ReplaceUnderscores(s: string): (r: string)
  {
    if s == [] then [] else [if s[0] == '_' then ' ' else s[0]] + ReplaceUnderscores(s[1..])
  }

  /** Every underscore becomes a space and nothing else changes. */
  lemma {:induction false} ReplaceUnderscoresSpec(s: string)
    ensures |ReplaceUnderscores(s)| == |s|
    ensures forall k | 0 <= k < |s| :: ReplaceUnderscores(s)[k] == if s[k] == '_' then ' ' else s[k]
    ensures '_' !in ReplaceUnderscores(s)
  {
    if s != [] {
      ReplaceUnderscoresSpec(s[1..]);
    }
  }

  /** The glTF mesh and node name of a model. */
  function NormaliseMeshName(name: string): string
  {
    match MatchModelPrefix(name)
    case Some(group) => ReplaceUnderscores(group)
    case None => name
  }

  /**
   * A name matching `^Model_[0-9]+_(.+)` becomes the captured tail with its
   * underscores replaced by spaces; any other name is kept, underscores included.
   */
  lemma NormaliseMeshNameSpec(name: string, digits: string, group: string, tail: string)
    ensures RegexMatches(name, digits, group, tail) ==>
      && |NormaliseMeshName(name)| == |group|
      && '_' !in NormaliseMeshName(name)
      && forall k | 0 <= k < |group| :: NormaliseMeshName(name)[k] == if group[k] == '_' then ' ' else group[k]
    ensures MatchModelPrefix(name).None? ==> NormaliseMeshName(name) == name
  {
    if RegexMatches(name, digits, group, tail) {
      MatchModelPrefixComplete(name, digits, group, tail);
      ReplaceUnderscoresSpec(group);
    }
  }

  /** A name without the prefix is not a match and keeps its underscores. */
  lemma UnprefixedNameKept(name: string)
    requires |name| < 6 || name[..6] != "Model_"
    ensures MatchModelPrefix(name).None?
    ensures NormaliseMeshName(name) == name
  {
  }

  /** The atlas naming scheme in one example: the prefix goes, underscores become spaces. */
  lemma AtlasNameExample()
    ensures NormaliseMeshName("Model_505_left_eye") == "left eye"
  {
    AtlasNameMatches();
    AtlasNameSpaces();
  }

  lemma AtlasNameMatches()
    ensures MatchModelPrefix("Model_505_left_eye") == Some("left_eye")
  {
    var name := "Model_505_left_eye";
    assert name == ModelPrefix + "505" + "_" + "left_eye" + "";
    assert forall k | 0 <= k < 3 :: IsDigit("505"[k]);
    MatchModelPrefixComplete(name, "505", "left_eye", "");
  }

  lemma AtlasNameSpaces()
    ensures ReplaceUnderscores("left_eye") == "left eye"
  {
    ReplaceUnderscoresSpec("left_eye");
  }

  // ---------------------------------------------------------------------------
  // Unit scale and root matrix

  /** The factor from the scene's length unit to metres, and whether a warning is logged. */
  function ScaleToMeters(suffix: string): (r: (real, bool))
    ensures r.0 > 0.0
    ensures r.1 <==> suffix != "mm" && suffix != "m"
    ensures suffix == "mm" ==> r.0 * 1000.0 == 1.0
    ensures suffix != "mm" ==> r.0 == 1.0
  {
    if suffix == "mm" then (0.001, false)
    else if suffix == "m" then (1.0, false)
    else (1.0, true)
  }

  /**
   * The matrix of the root node, in glTF's column-major order: it takes LPS
   * coordinates in the scene unit to the glTF frame (+Y up, +Z forward) in metres.
   */
  function RootMatrix(s: real): (m: seq<real>)
    ensures |m| == 16
  {
    [ s,   0.0, 0.0, 0.0,
      0.0, 0.0, -s,  0.0,
      0.0, s,   0.0, 0.0,
      0.0, 0.0, 0.0, 1.0 ]
  }

  /** Row `r` of a column-major 4x4 matrix applied to a homogeneous point. */
  function Row(m: seq<real>, r: nat, p: seq<real>): real
    requires |m| == 16 && |p| == 4 && r < 4
  {
    m[r] * p[0] + m[4 + r] * p[1] + m[8 + r] * p[2] + m[12 + r] * p[3]
  }

  function Transform(m: seq<real>, p: seq<real>): (q: seq<real>)
    requires |m| == 16 && |p| == 4
    ensures |q| == 4
  {
    [Row(m, 0, p), Row(m, 1, p), Row(m, 2, p), Row(m, 3, p)]
  }

  /**
   * The root matrix scales by `s` and maps left to glTF X, superior to glTF Y
   * (up) and posterior to glTF -Z: the anatomical S axis is glTF's up axis.
   */
  lemma RootMatrixMapsLpsToLsa(s: real, x: real, y: real, z: real)
    ensures Transform(RootMatrix(s), [x, y, z, 1.0]) == [s * x, s * z, -s * y, 1.0]
  {
    var m, p := RootMatrix(s), [x, y, z, 1.0];
    assert Row(m, 0, p) == s * x;
    assert Row(m, 1, p) == s * z;
    assert Row(m, 2, p) == (-s) * y;
    assert Row(m, 3, p) == 1.0;
  }

  /** Determinant of the upper-left 3x3 block of a column-major 4x4 matrix. */
  function Det3(m: seq<real>): real
    requires |m| == 16
  {
    m[0] * (m[5] * m[10] - m[9] * m[6])
    - m[4] * (m[1] * m[10] - m[9] * m[2])
    + m[8] * (m[1] * m[6] - m[5] * m[2])
  }

  /**
   * The root transform keeps handedness: the determinant of its linear part is
   * the cube of the (positive) scale, so it preserves orientation. That it is a
   * rotation scaled by `s` is what RootMatrixMapsLpsToLsa shows.
   */
  lemma RootMatrixKeepsHandedness(suffix: string)
    ensures var s := ScaleToMeters(suffix).0;
      && Det3(RootMatrix(s)) == s * s * s
      && Det3(RootMatrix(s)) > 0.0
  {
    var s := ScaleToMeters(suffix).0;
    assert s * s > 0.0;
    assert s * s * s > 0.0;
  }

  /** With millimetres, a point 1000 units along L lands 1 metre along glTF X. */
  lemma MillimetreExample()
    ensures Transform(RootMatrix(ScaleToMeters("mm").0), [1000.0, 0.0, 0.0, 1.0]) == [1.0, 0.0, 0.0, 1.0]
  {
    RootMatrixMapsLpsToLsa(0.001, 1000.0, 0.0, 0.0);
  }
}
