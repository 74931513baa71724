/** Small shared vocabulary: an optional value, and the two ways the
    application removes one element of a list by position — the server's
    `splice(index, 1)` and the browser's `filter((_, i) => i !== index)`. */
module Basics {

  datatype Option<+T> = None | Some(value: T) {
    function GetOr(default: T): T {
      match this
      case Some(v) => v
      case None => default
    }
  }

  /** A request body value that `!value` does not reject: present and not empty. */
  predicate Given(v: Option<string>) {
    v.Some? && v.value != ""
  }

  /** `list.splice(index, 1)` for an index the caller has checked to be in range. */
  function Splice<T>(s: seq<T>, index: nat): (r: seq<T>)
    requires index < |s|
    ensures |r| == |s| - 1
    ensures forall j :: 0 <= j < index ==> r[j] == s[j]
    ensures forall j :: index <= j < |r| ==> r[j] == s[j + 1]
    ensures multiset(r) + multiset{s[index]} == multiset(s)
  {
    assert s == s[..index] + [s[index]] + s[index + 1..];
    s[..index] + s[index + 1..]
  }

  /** `list.filter((_, i) => i !== index)`: keeps every element whose position
      differs from `index`. Any `index` is accepted, as in JavaScript. */
  function WithoutPosition<T>(s: seq<T>, index: int): (r: seq<T>)
    decreases |s|
  {
    if s == [] then []
    else (if index == 0 then [] else [s[0]]) + WithoutPosition(s[1..], index - 1)
  }

  /** The client's positional filter and the server's splice agree on every
      in-range index; out of range the filter keeps the whole list. */
  lemma {:induction false} WithoutPositionIsSplice<T>(s: seq<T>, index: int)
    ensures 0 <= index < |s| ==> WithoutPosition(s, index) == Splice(s, index)
    ensures !(0 <= index < |s|) ==> WithoutPosition(s, index) == s
    decreases |s|
  {
    if s != [] {
      WithoutPositionIsSplice(s[1..], index - 1);
      if index == 0 {
        assert Splice(s, 0) == s[1..];
      } else if 0 < index < |s| {
        assert Splice(s, index) == [s[0]] + Splice(s[1..], index - 1);
      } else {
        assert [s[0]] + s[1..] == s;
      }
    }
  }

  /** Removing by the filter shortens an in-range list by exactly one. */
  lemma WithoutPositionLength<T>(s: seq<T>, index: int)
    requires 0 <= index < |s|
    ensures |WithoutPosition(s, index)| == |s| - 1
  {
    WithoutPositionIsSplice(s, index);
  }
}
