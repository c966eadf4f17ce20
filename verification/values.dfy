/**
 * Untyped upstream rows as the request handler sees them after JSON parsing:
 * a row is an object from field name to JSON value, and every classification
 * test is JavaScript truthiness of a property read.
 */
module Values {
  import opened Wrappers

  /** A parsed JSON value. Numbers are exact reals: JSON cannot denote NaN. */
  datatype Value =
    | Null
    | Bool(b: bool)
    | Num(n: real)
    | Str(s: string)
    | Arr(items: seq<Value>)
    | Obj(fields: map<string, Value>)

  /** One upstream row; a field that is not a key reads as `undefined`. */
  type Row = map<string, Value>

  /** JavaScript truthiness: `null`, `false`, `0`, `-0` and `""` are falsy, everything else is truthy. */
  predicate IsTruthy(v: Value) {
    match v
    case Null => false
    case Bool(b) => b
    case Num(n) => n != 0.0
    case Str(s) => s != ""
    case Arr(_) => true
    case Obj(_) => true
  }

  /** `row.key` is truthy; an absent key reads as `undefined`, which is falsy. */
  predicate Truthy(row: Row, key: string) {
    key in row && IsTruthy(row[key])
  }

  /** `needle` occurs in `s` starting at position `i`. */
  predicate OccursAt(s: string, needle: string, i: nat) {
    i + |needle| <= |s| && s[i..i + |needle|] == needle
  }

  /** `String.prototype.includes`: a left-to-right scan for `needle` in `s`. */
  function Contains(s: string, needle: string): (r: bool)
    ensures r <==> exists i: nat :: i <= |s| && OccursAt(s, needle, i)
    decreases |s|
  {
    if |s| < |needle| then
      assert forall i: nat :: i <= |s| ==> !OccursAt(s, needle, i);
      false
    else if s[..|needle|] == needle then
      assert OccursAt(s, needle, 0);
      true
    else
      var rest := Contains(s[1..], needle);
      assert forall i: nat :: 1 <= i <= |s| ==> (OccursAt(s, needle, i) <==> OccursAt(s[1..], needle, i - 1)) by {
        forall i: nat | 1 <= i <= |s|
          ensures OccursAt(s, needle, i) <==> OccursAt(s[1..], needle, i - 1)
        {
          if i + |needle| <= |s| {
            var here, there := s[i..i + |needle|], s[1..][i - 1..i - 1 + |needle|];
            assert forall k :: 0 <= k < |here| ==> here[k] == there[k];
            assert here == there;
          }
        }
      }
      if rest then
        var j: nat :| j <= |s[1..]| && OccursAt(s[1..], needle, j);
        assert OccursAt(s, needle, j + 1);
        true
      else
        assert !OccursAt(s, needle, 0);
        false
  }

  /**
   * `v.includes(needle)` for a JSON value `v`: strings search for a substring,
   * arrays search for an element strictly equal to the string `needle`, and
   * every other value has no `includes` method, so the call throws (`None`).
   */
  function Includes(v: Value, needle: string): Option<bool> {
    match v
    case Str(s) => Some(Contains(s, needle))
    case Arr(items) => Some(Str(needle) in items)
    case _ => None
  }

  /** `row.name.includes(needle)`; an absent `name` reads as `undefined` and throws (`None`). */
  function NameIncludes(row: Row, needle: string): (r: Option<bool>)
    ensures r.Some? <==> "name" in row && (row["name"].Str? || row["name"].Arr?)
    ensures "name" in row && row["name"].Str? ==>
              (r == Some(true) <==> exists i: nat :: i <= |row["name"].s| && OccursAt(row["name"].s, needle, i))
    ensures "name" in row && row["name"].Arr? ==> (r == Some(true) <==> Str(needle) in row["name"].items)
  {
    if "name" in row then Includes(row["name"], needle) else None
  }
}
