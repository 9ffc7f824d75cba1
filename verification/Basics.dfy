/** Result types, JSON values and the few string operations the modelled code uses. */
module Wrappers {
  datatype Option<+T> = None | Some(value: T) {
    function GetOr(default: T): T {
      if Some? then value else default
    }
  }

  datatype Result<+T, +E> = Ok(value: T) | Err(error: E)
}

module Json {
  import opened Wrappers

  /** A decoded JSON value. */
  datatype Json =
    | Null
    | Bool(flag: bool)
    | Num(number: real)
    | Str(text: string)
    | Arr(items: seq<Json>)
    | Obj(fields: map<string, Json>)
  {
    /** `dict.get`, on values that may not be objects at all. */
    function Get(key: string): Option<Json> {
      if Obj? && key in fields then Some(fields[key]) else None
    }

    /** The string stored under `key`, when there is one. */
    function GetStr(key: string): Option<string> {
      var v := Get(key);
      if v.Some? && v.value.Str? then Some(v.value.text) else None
    }
  }
}

module Text {
  predicate StartsWith(s: string, t: string) {
    t <= s
  }

  predicate EndsWith(s: string, t: string) {
    |t| <= |s| && s[|s| - |t|..] == t
  }

  predicate OccursAt(s: string, t: string, i: int) {
    0 <= i && i + |t| <= |s| && s[i..i + |t|] == t
  }

  predicate Contains(s: string, t: string) {
    exists i | 0 <= i <= |s| :: OccursAt(s, t, i)
  }

  /** `s.rstrip(c)` for a single character. */
  function RStrip(s: string, c: char): (r: string)
    ensures r <= s
    ensures r == "" || r[|r| - 1] != c
    ensures forall i :: |r| <= i < |s| ==> s[i] == c
  {
    if s != "" && s[|s| - 1] == c then RStrip(s[..|s| - 1], c) else s
  }

  /** Containing a text is being it with something before and after. */
  lemma ContainsExactly(s: string, t: string)
    ensures Contains(s, t) <==> exists before, after :: s == before + t + after
  {
    if Contains(s, t) {
      var i :| 0 <= i <= |s| && OccursAt(s, t, i);
      assert s == s[..i] + t + s[i + |t|..];
    }
    forall before, after | s == before + t + after ensures Contains(s, t) {
      ContainsPart(before, t, after);
    }
  }

  lemma ContainsPart(s: string, t: string, u: string)
    ensures Contains(s + t + u, t)
  {
    assert (s + t + u)[|s|..|s| + |t|] == t;
    assert OccursAt(s + t + u, t, |s|);
  }
}
