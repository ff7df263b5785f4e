/** The few JavaScript value rules the modelled code relies on: `undefined`,
    truthiness of strings and `||`, `startsWith`, `includes`, and the two
    path helpers the release script uses on POSIX-style paths. */
module Js {

  /** A value that may be `undefined` (None). */
  datatype Option<T> = None | Some(value: T)

  /** Truthiness of a string-or-undefined value: only a non-empty string is truthy. */
  predicate Truthy(v: Option<string>) {
    v.Some? && v.value != ""
  }

  /** `a || b` on string-or-undefined values. */
  function Or(a: Option<string>, b: Option<string>): (r: Option<string>)
    ensures Truthy(r) <==> Truthy(a) || Truthy(b)
    ensures Truthy(a) ==> r == a
    ensures !Truthy(a) ==> r == b
  {
    if Truthy(a) then a else b
  }

  /** `String(v)`: `undefined` is rendered as the text "undefined". */
  function Str(v: Option<string>): string {
    if v.Some? then v.value else "undefined"
  }

  /** `s.startsWith(prefix)` */
  predicate StartsWith(s: string, prefix: string) {
    |prefix| <= |s| && s[..|prefix|] == prefix
  }

  /** `s.includes(sub)`, by scanning the start positions left to right. */
  predicate Includes(s: string, sub: string)
    decreases |s|
  {
    StartsWith(s, sub) || (|s| > 0 && Includes(s[1..], sub))
  }

  /** `sub` occurs in `s` starting at position `i`. */
  predicate OccursAt(s: string, sub: string, i: int) {
    0 <= i <= |s| - |sub| && s[i..i + |sub|] == sub
  }

  /** `includes` holds exactly when `sub` occurs at some position of `s`. */
  lemma {:induction false} IncludesIffOccurs(s: string, sub: string)
    ensures Includes(s, sub) <==> exists i :: OccursAt(s, sub, i)
    decreases |s|
  {
    if StartsWith(s, sub) {
      assert OccursAt(s, sub, 0);
    } else if |s| == 0 {
    } else {
      IncludesIffOccurs(s[1..], sub);
      if exists i :: OccursAt(s, sub, i) {
        var i :| OccursAt(s, sub, i);
        assert i != 0;
        assert s[1..][i - 1..i - 1 + |sub|] == s[i..i + |sub|];
        assert OccursAt(s[1..], sub, i - 1);
      }
      if exists j :: OccursAt(s[1..], sub, j) {
        var j :| OccursAt(s[1..], sub, j);
        assert 0 <= j && j + |sub| <= |s| - 1;
        forall k | 0 <= k < |sub| ensures s[j + 1..j + 1 + |sub|][k] == sub[k] {
          assert s[1..][j..j + |sub|][k] == sub[k];
        }
        assert s[j + 1..j + 1 + |sub|] == sub;
        assert OccursAt(s, sub, j + 1);
      }
    }
  }

  /** `path.join(dir, name)` for a directory and a plain file name. */
  function Join(dir: string, name: string): (r: string)
    ensures |r| == |dir| + 1 + |name|
  {
    dir + "/" + name
  }

  /** `path.basename(p)`: the part after the last '/', or all of `p` when it
      has none. */
  function BaseName(p: string): (r: string)
    ensures '/' !in r
    ensures |r| <= |p| && r == p[|p| - |r|..]
    decreases |p|
  {
    if p == [] then []
    else if p[|p| - 1] == '/' then []
    else BaseName(p[..|p| - 1]) + [p[|p| - 1]]
  }

  /** The base name is the whole last segment: either it is all of `p`, or the
      character just before it is the last '/' of `p`. */
  lemma {:induction false} BaseNameIsLastSegment(p: string)
    ensures var r := BaseName(p);
      r == p || (p[|p| - |r| - 1] == '/' && '/' !in p[|p| - |r|..])
    decreases |p|
  {
    if p != [] && p[|p| - 1] != '/' {
      var q := p[..|p| - 1];
      BaseNameIsLastSegment(q);
      var r := BaseName(q);
      if r != q {
        assert p[|p| - |r| - 2] == q[|q| - |r| - 1];
        assert p[|p| - |r| - 1..] == q[|q| - |r|..] + [p[|p| - 1]];
      } else {
        assert BaseName(p) == q + [p[|p| - 1]] == p;
      }
    }
  }

  /** The base name of a joined path is the file name that was joined. */
  lemma {:induction false} BaseNameOfJoin(dir: string, name: string)
    requires '/' !in name
    ensures BaseName(Join(dir, name)) == name
    decreases |name|
  {
    if name == [] {
    } else {
      var p := Join(dir, name);
      assert p[..|p| - 1] == Join(dir, name[..|name| - 1]);
      BaseNameOfJoin(dir, name[..|name| - 1]);
      assert name[..|name| - 1] + [name[|name| - 1]] == name;
    }
  }
}
