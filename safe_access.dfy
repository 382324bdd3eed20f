/** `safeGet` and `asArray`, the two helpers through which the normaliser reads the
    parsed tree. Both source files define them; their `asArray` is the same, their
    `safeGet` differs only in the guard on a falsy starting object. */
module SafeAccess {
  import opened JsStrings
  import opened JsValues

  /** The `path` argument of `safeGet`: an array of keys, or a string split at dots. */
  datatype Path = Keys(keys: seq<string>) | Dotted(text: string)

  function KeysOf(path: Path): seq<string>
  {
    match path
    case Keys(keys) => keys
    case Dotted(text) => Split(text)
  }

  /** Follows `keys` from `v` one property access at a time; `None` as soon as a step
      yields undefined or null. With no keys left it is `Some(v)`, whatever `v` is. */
  function Walk(v: Value, keys: seq<string>): Option<Value>
  {
    if keys == [] then Some(v)
    else
      match Member(v, keys[0])
      case None => None
      case Some(w) => if w.Null? then None else Walk(w, keys[1..])
  }

  /** What `safeGet` of backend/util/xmlParser.js returns. */
  function LookupLegacy(obj: Value, keys: seq<string>, default: Value): Value
  {
    match Walk(obj, keys)
    case None => default
    case Some(w) => w
  }

  /** What `safeGet` of backend/utils/xmlParser.js returns: the same walk, behind a
      guard that answers `default` for a falsy starting object. */
  function Lookup(obj: Value, keys: seq<string>, default: Value): Value
  {
    if !Truthy(obj) then default else LookupLegacy(obj, keys, default)
  }

  /** `safeGet` of backend/util/xmlParser.js. */
  method SafeGetLegacy(obj: Value, path: Path, default: Value) returns (r: Value)
    ensures r == LookupLegacy(obj, KeysOf(path), default)
  {
    var keys := KeysOf(path);
    var result := obj;
    for i := 0 to |keys|
      invariant Walk(obj, keys) == Walk(result, keys[i..])
    {
      var next := Member(result, keys[i]);
      if next.None? || next.value.Null? {
        return default;
      }
      result := next.value;
    }
    assert keys[|keys|..] == [];
    return result;
  }

  /** `safeGet` of backend/utils/xmlParser.js. */
  method SafeGet(obj: Value, path: Path, default: Value) returns (r: Value)
    ensures r == Lookup(obj, KeysOf(path), default)
  {
    if !Truthy(obj) {
      return default;
    }
    r := SafeGetLegacy(obj, path, default);
  }

  /** Walking `a + b` is walking `a`, then `b` from where `a` ended. */
  lemma {:induction false} WalkConcat(v: Value, a: seq<string>, b: seq<string>)
    ensures Walk(v, a + b) == match Walk(v, a) case None => None case Some(w) => Walk(w, b)
  {
    if a == [] {
      assert a + b == b;
    } else {
      assert (a + b)[0] == a[0];
      assert (a + b)[1..] == a[1..] + b;
      match Member(v, a[0])
      case None =>
      case Some(w) =>
        if !w.Null? {
          WalkConcat(w, a[1..], b);
        }
    }
  }

  /** A walk of at least one step never ends on null. */
  lemma {:induction false} WalkNeverEndsOnNull(v: Value, keys: seq<string>)
    requires keys != []
    ensures Walk(v, keys) != Some(Null)
  {
    match Member(v, keys[0])
    case None =>
    case Some(w) =>
      if !w.Null? && keys[1..] != [] {
        WalkNeverEndsOnNull(w, keys[1..]);
      }
  }

  /** A walk fails as soon as one step, taken from where the earlier steps led, yields
      undefined or null. */
  lemma {:induction false} WalkStopsAtMissingStep(v: Value, keys: seq<string>, i: nat, w: Value)
    requires i < |keys| && Walk(v, keys[..i]) == Some(w)
    requires Member(w, keys[i]).None? || Member(w, keys[i]) == Some(Null)
    ensures Walk(v, keys) == None
  {
    assert keys == keys[..i] + keys[i..];
    WalkConcat(v, keys[..i], keys[i..]);
    assert keys[i..][0] == keys[i];
  }

  /** A walk that succeeds took a defined, non-null step at every key. */
  lemma {:induction false} WalkSucceedsThroughEveryStep(v: Value, keys: seq<string>, i: nat)
    requires i < |keys| && Walk(v, keys).Some?
    ensures Walk(v, keys[..i]).Some?
    ensures Member(Walk(v, keys[..i]).value, keys[i]).Some?
    ensures Member(Walk(v, keys[..i]).value, keys[i]) != Some(Null)
  {
    assert keys == keys[..i] + keys[i..];
    WalkConcat(v, keys[..i], keys[i..]);
    assert keys[i..][0] == keys[i];
  }

  /** `safeGet` answers `default` or the value at the end of the path; it answers `null`
      only when `default` is `null` or the path is empty. */
  lemma {:induction false} LookupResult(obj: Value, keys: seq<string>, default: Value)
    ensures Lookup(obj, keys, default) == default || Walk(obj, keys) == Some(Lookup(obj, keys, default))
    ensures Walk(obj, keys).None? ==> Lookup(obj, keys, default) == default
    ensures keys != [] && Lookup(obj, keys, default) == Null ==> default == Null
    ensures LookupLegacy(obj, keys, default) == default || Walk(obj, keys) == Some(LookupLegacy(obj, keys, default))
  {
    if keys != [] {
      WalkNeverEndsOnNull(obj, keys);
    }
  }

  /** The two `safeGet`s agree on every non-empty path; on the empty path the older one
      returns the object itself, even `null`, where the newer one returns the object when
      it is truthy and `default` otherwise. */
  lemma {:induction false} LegacyLookupAgrees(obj: Value, keys: seq<string>, default: Value)
    ensures keys != [] ==> LookupLegacy(obj, keys, default) == Lookup(obj, keys, default)
    ensures LookupLegacy(obj, [], default) == obj
    ensures Lookup(obj, [], default) == if Truthy(obj) then obj else default
  {
    if keys != [] && !Truthy(obj) {
      assert Member(obj, keys[0]).None?;
    }
  }

  /** Looking up `b` in the result of looking up `a` (default `null`) is looking up the
      whole path `a + b`: the source reads the summary counters and balances this way. */
  lemma {:induction false} LookupChain(obj: Value, a: seq<string>, b: seq<string>, default: Value)
    requires a != [] && b != []
    ensures Lookup(Lookup(obj, a, Null), b, default) == Lookup(obj, a + b, default)
    ensures LookupLegacy(LookupLegacy(obj, a, Null), b, default) == LookupLegacy(obj, a + b, default)
  {
    WalkConcat(obj, a, b);
    LegacyLookupAgrees(obj, a, Null);
    LegacyLookupAgrees(obj, a + b, default);
    var mid := LookupLegacy(obj, a, Null);
    LegacyLookupAgrees(mid, b, default);
    WalkNeverEndsOnNull(obj, a);
    if !Truthy(mid) {
      assert Member(mid, b[0]).None?;
    }
  }

  /** `asArray`: a falsy value is the empty list, an array is its own elements, any
      other value (an object, empty or not, or a non-empty string) is a list of one. */
  function AsArray(v: Value): (r: seq<Value>)
    ensures !Truthy(v) ==> r == []
    ensures v.Arr? ==> r == v.items
    ensures Truthy(v) && !v.Arr? ==> r == [v]
  {
    if !Truthy(v) then [] else if v.Arr? then v.items else [v]
  }
}
