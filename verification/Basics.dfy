/** What several of the models use. */
module Basics {
  /** A result, or none where the code panics, fails an assertion or returns a null pointer. */
  datatype Option<T> = None | Some(value: T)

  function Pow2(k: nat): nat {
    if k == 0 then 1 else 2 * Pow2(k - 1)
  }

  /** The sequence without the first `t`. */
  function Without<T(==)>(s: seq<T>, t: T): seq<T> {
    if s == [] then [] else if s[0] == t then s[1..] else [s[0]] + Without(s[1..], t)
  }

  lemma {:induction false} WithoutSlice<T>(s: seq<T>, t: T) returns (i: nat)
    requires t in s
    ensures i < |s| && s[i] == t && Without(s, t) == s[..i] + s[i + 1..]
    decreases s
  {
    if s[0] == t {
      i := 0;
    } else {
      var k := WithoutSlice(s[1..], t);
      i := k + 1;
      assert s[1..][..k] == s[1..i];
      assert s[1..][k + 1..] == s[i + 1..];
      assert [s[0]] + s[1..i] == s[..i];
    }
  }
}
