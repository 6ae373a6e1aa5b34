/** Shared vocabulary of the routing harness: failure-compatible wrappers,
    the JavaScript values that player ids and packet origins take, and
    `Array.prototype.findIndex`. */
module Base {

  datatype Option<+T> = None | Some(value: T)

  datatype Result<+T, +E> = Success(value: T) | Failure(error: E)

  /** A call that either returns normally or throws `error`. */
  datatype Outcome<+E> = Pass | Fail(error: E)

  /** The values a player id or a packet origin can hold: `undefined`
      (an origin that was never passed), `null`, or a string. */
  datatype JsValue = Undefined | Null | Str(s: string)

  /** JavaScript truthiness of such a value: only a non-empty string is truthy. */
  predicate Truthy(v: JsValue)
    ensures Truthy(v) <==> v != Undefined && v != Null && v != Str("")
  {
    v.Str? && |v.s| > 0
  }

  /** A parameter whose default is `null`: an argument left `undefined` takes
      the default, any other is passed on. */
  function DefaultNull(v: JsValue): (r: JsValue)
    ensures v == Undefined ==> r == Null
    ensures v != Undefined ==> r == v
  {
    if v == Undefined then Null else v
  }

  /** `v ?? fallback`: the fallback replaces `null` and `undefined` only. */
  function Nullish(v: JsValue, fallback: JsValue): (r: JsValue)
    ensures v.Str? ==> r == v
    ensures !v.Str? ==> r == fallback
  {
    match v
    case Str(_) => v
    case _ => fallback
  }

  /** `s.findIndex(p)`: the first index whose element satisfies `p`, or
      `None` where JavaScript returns -1. */
  function FindIndex<T>(s: seq<T>, p: T -> bool): (r: Option<nat>)
    ensures r.Some? ==> r.value < |s| && p(s[r.value])
    ensures r.Some? ==> forall j :: 0 <= j < r.value ==> !p(s[j])
    ensures r.None? <==> forall j :: 0 <= j < |s| ==> !p(s[j])
  {
    if s == [] then None
    else if p(s[0]) then Some(0)
    else match FindIndex(s[1..], p)
      case None => None
      case Some(k) => Some(k + 1)
  }

  /** `s.splice(k, 1)` on a list: the element at `k` taken out, the rest in order. */
  function RemoveAt<T>(s: seq<T>, k: nat): (r: seq<T>)
    requires k < |s|
    ensures |r| == |s| - 1
    ensures forall j :: 0 <= j < k ==> r[j] == s[j]
    ensures forall j :: k <= j < |r| ==> r[j] == s[j + 1]
    ensures multiset(r) + multiset{s[k]} == multiset(s)
  {
    assert s == s[..k] + [s[k]] + s[k + 1..];
    s[..k] + s[k + 1..]
  }

  /** No element occurs twice: every element is new to the ones before it. */
  predicate Unique<T(==)>(s: seq<T>)
    decreases |s|
  {
    s == [] || (s[|s| - 1] !in s[..|s| - 1] && Unique(s[..|s| - 1]))
  }

  /** The recursive definition agrees with the pairwise one. */
  lemma {:induction false} UniqueIff<T>(s: seq<T>)
    ensures Unique(s) <==> forall i, j :: 0 <= i < j < |s| ==> s[i] != s[j]
    decreases |s|
  {
    if s != [] {
      var n := |s| - 1;
      var init := s[..n];
      UniqueIff(init);
      if Unique(s) {
        forall i, j | 0 <= i < j < |s| ensures s[i] != s[j] {
          assert s[i] == init[i];
          if j < n {
            assert s[j] == init[j];
          }
        }
      }
      if forall i, j :: 0 <= i < j < |s| ==> s[i] != s[j] {
        forall i, j | 0 <= i < j < |init| ensures init[i] != init[j] {
          assert init[i] == s[i] && init[j] == s[j];
        }
      }
    }
  }

  /** Appending keeps a list unique exactly when the new element is not in it. */
  lemma UniqueSnoc<T>(s: seq<T>, x: T)
    ensures Unique(s + [x]) <==> x !in s && Unique(s)
  {
    assert (s + [x])[..|s|] == s;
  }

  /** Taking one element out keeps a list unique. */
  lemma UniqueRemoveAt<T>(s: seq<T>, k: nat)
    requires Unique(s) && k < |s|
    ensures Unique(RemoveAt(s, k))
  {
    UniqueIff(s);
    var r := RemoveAt(s, k);
    forall i, j | 0 <= i < j < |r| ensures r[i] != r[j] {
      var i' := if i < k then i else i + 1;
      var j' := if j < k then j else j + 1;
      assert r[i] == s[i'] && r[j] == s[j'];
    }
    UniqueIff(r);
  }

  /** Two positions of a list without repeats hold different elements. */
  lemma UniqueDistinct<T>(s: seq<T>, i: nat, j: nat)
    requires Unique(s) && i < |s| && j < |s| && i != j
    ensures s[i] != s[j]
  {
    UniqueIff(s);
  }

  lemma AppendAssoc<T>(a: seq<T>, b: seq<T>, c: seq<T>)
    ensures (a + b) + c == a + (b + c)
  {
  }
}
