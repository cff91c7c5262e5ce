/**
 * The non-volatile key-value store behind Arduino's `Preferences`: a flash
 * holds named namespaces, each a map from key to a typed value. A read of a
 * missing key, or of a key holding another type, yields the caller's default.
 */
module Preferences {
  import opened DeviceStats

  datatype Value = Str(s: string) | Int(i: Int32)

  type Namespace = map<string, Value>

  type Flash = map<string, Namespace>

  /** The contents of one namespace; a namespace never written is empty. */
  function Space(f: Flash, ns: string): Namespace {
    if ns in f then f[ns] else map[]
  }

  /** The key holds a string value. */
  predicate HoldsString(f: Flash, ns: string, key: string) {
    key in Space(f, ns) && Space(f, ns)[key].Str?
  }

  /** The key holds an integer value. */
  predicate HoldsInt(f: Flash, ns: string, key: string) {
    key in Space(f, ns) && Space(f, ns)[key].Int?
  }

  function GetString(f: Flash, ns: string, key: string, default: string): (v: string)
    ensures HoldsString(f, ns, key) ==> v == Space(f, ns)[key].s
    ensures !HoldsString(f, ns, key) ==> v == default
  {
    var m := Space(f, ns);
    if key in m && m[key].Str? then m[key].s else default
  }

  function GetInt(f: Flash, ns: string, key: string, default: Int32): (v: Int32)
    ensures HoldsInt(f, ns, key) ==> v == Space(f, ns)[key].i
    ensures !HoldsInt(f, ns, key) ==> v == default
  {
    var m := Space(f, ns);
    if key in m && m[key].Int? then m[key].i else default
  }

  /** g differs from f at most in the given keys of namespace ns. */
  ghost predicate SameExcept(f: Flash, g: Flash, ns: string, keys: set<string>) {
    && (forall n :: n != ns ==> Space(g, n) == Space(f, n))
    && Space(g, ns) - keys == Space(f, ns) - keys
  }

  function Put(f: Flash, ns: string, key: string, v: Value): (g: Flash)
    ensures Space(g, ns) == Space(f, ns)[key := v]
    ensures SameExcept(f, g, ns, {key})
  {
    f[ns := Space(f, ns)[key := v]]
  }

  function PutString(f: Flash, ns: string, key: string, v: string): (g: Flash)
    ensures forall d :: GetString(g, ns, key, d) == v
    ensures SameExcept(f, g, ns, {key})
  {
    Put(f, ns, key, Str(v))
  }

  function PutInt(f: Flash, ns: string, key: string, v: Int32): (g: Flash)
    ensures forall d :: GetInt(g, ns, key, d) == v
    ensures SameExcept(f, g, ns, {key})
  {
    Put(f, ns, key, Int(v))
  }

  function Remove(f: Flash, ns: string, key: string): (g: Flash)
    ensures key !in Space(g, ns)
    ensures SameExcept(f, g, ns, {key})
  {
    f[ns := Space(f, ns) - {key}]
  }

  /** Erases every key of one namespace. */
  function Clear(f: Flash, ns: string): (g: Flash)
    ensures Space(g, ns) == map[]
    ensures forall n :: n != ns ==> Space(g, n) == Space(f, n)
  {
    f[ns := map[]]
  }

  /** Reads outside the changed keys see the same values. */
  lemma ReadsFramed(f: Flash, g: Flash, ns: string, keys: set<string>, n: string, k: string)
    requires SameExcept(f, g, ns, keys)
    requires n != ns || k !in keys
    ensures forall d :: GetString(g, n, k, d) == GetString(f, n, k, d)
    ensures forall d :: GetInt(g, n, k, d) == GetInt(f, n, k, d)
  {
    if n == ns {
      assert (k in Space(g, ns)) == (k in Space(g, ns) - keys);
      assert (k in Space(f, ns)) == (k in Space(f, ns) - keys);
      if k in Space(g, ns) {
        assert Space(g, ns)[k] == (Space(g, ns) - keys)[k];
        assert Space(f, ns)[k] == (Space(f, ns) - keys)[k];
      }
    }
  }

  /** Two framed changes compose into one. */
  lemma SameExceptTrans(f: Flash, g: Flash, h: Flash, ns: string, keys1: set<string>, keys2: set<string>)
    requires SameExcept(f, g, ns, keys1) && SameExcept(g, h, ns, keys2)
    ensures SameExcept(f, h, ns, keys1 + keys2)
  {
    var a, b, c := Space(f, ns), Space(g, ns), Space(h, ns);
    var ks := keys1 + keys2;
    assert a - ks == (a - keys1) - keys2;
    assert b - ks == (b - keys1) - keys2 == (b - keys2) - keys1;
    assert c - ks == (c - keys2) - keys1;
  }
}
