/** Small shared vocabulary: optional values, results carrying the source's
    exception messages, and the few string helpers the parameter layer needs. */
module Common {

  datatype Option<+T> = None | Some(value: T)

  /** The outcome of an operation that the source ends by throwing
      `std::runtime_error(message)` on its error path. */
  datatype Result<+T> = Ok(value: T) | Err(message: string)

  /** `s.length() > 0 && s[0] == '/'` */
  predicate StartsWithSlash(s: string) {
    |s| > 0 && s[0] == '/'
  }

  /** `*s.rbegin() == '/'`; an empty string is read as not ending in a slash. */
  predicate EndsWithSlash(s: string) {
    |s| > 0 && s[|s| - 1] == '/'
  }

  /** Position of the last '/' in `s` (`std::string::rfind('/')`), None for npos. */
  function LastSlash(s: string): (r: Option<nat>)
    ensures r.Some? ==> r.value < |s| && s[r.value] == '/'
    ensures r.Some? ==> forall k :: r.value < k < |s| ==> s[k] != '/'
    ensures r.None? ==> forall k :: 0 <= k < |s| ==> s[k] != '/'
  {
    if s == [] then None
    else if s[|s| - 1] == '/' then Some(|s| - 1)
    else LastSlash(s[..|s| - 1])
  }

  /** `s` is a prefix of `t`. */
  ghost predicate IsPrefix<T>(s: seq<T>, t: seq<T>) {
    |s| <= |t| && t[..|s|] == s
  }

  /** No element occurs twice. */
  ghost predicate NoDuplicates<T>(s: seq<T>) {
    forall i, j :: 0 <= i < j < |s| ==> s[i] != s[j]
  }

  /** `s` with every occurrence of `x` removed (the erase/remove idiom). */
  function RemoveAll<T(==)>(s: seq<T>, x: T): (r: seq<T>)
    ensures x !in r
    ensures forall i :: 0 <= i < |r| ==> r[i] in s
    ensures forall i :: 0 <= i < |s| && s[i] != x ==> s[i] in r
    ensures |r| <= |s|
  {
    if s == [] then []
    else if s[0] == x then RemoveAll(s[1..], x)
    else [s[0]] + RemoveAll(s[1..], x)
  }

  lemma {:induction false} RemoveAllKeepsDistinct<T>(s: seq<T>, x: T)
    requires NoDuplicates(s)
    ensures NoDuplicates(RemoveAll(s, x))
  {
    if s != [] {
      assert NoDuplicates(s[1..]) by {
        forall i, j | 0 <= i < j < |s[1..]| ensures s[1..][i] != s[1..][j] {
          assert s[1..][i] == s[i + 1] && s[1..][j] == s[j + 1];
        }
      }
      RemoveAllKeepsDistinct(s[1..], x);
      if s[0] != x {
        var rest := RemoveAll(s[1..], x);
        assert s[0] !in s[1..];
        forall i, j | 0 <= i < j < |[s[0]] + rest| ensures ([s[0]] + rest)[i] != ([s[0]] + rest)[j] {
          if i == 0 {
            assert ([s[0]] + rest)[j] == rest[j - 1];
          } else {
            assert ([s[0]] + rest)[i] == rest[i - 1] && ([s[0]] + rest)[j] == rest[j - 1];
          }
        }
      }
    }
  }
}
