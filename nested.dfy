/**
 * setNested: a dot-separated header names a path into a tree of string-keyed objects
 * whose leaves are strings. Intermediate levels are created where the slot is falsy
 * (absent or the empty string); the leaf is assigned, overwriting whatever was there.
 * A non-empty string met on the way is descended into, and the property assignment on
 * that string primitive throws in strict mode: the model reports it as a failure.
 */
module Nested {
  import opened Wrappers
  import opened Strings

  /** A JavaScript value the row objects can hold: a string or a plain object. */
  datatype Value = Str(text: string) | Obj(fields: map<string, Value>)

  /** JavaScript truthiness: an object is truthy, a string only when non-empty. */
  predicate Truthy(v: Value) {
    v.Obj? || v.text != ""
  }

  /** The value found by following a path of property names, if every step is an object. */
  function Get(m: map<string, Value>, path: seq<string>): Option<Value>
    requires |path| >= 1
    decreases |path|
  {
    if path[0] !in m then None
    else if |path| == 1 then Some(m[path[0]])
    else match m[path[0]]
      case Str(_) => None
      case Obj(child) => Get(child, path[1..])
  }

  /**
   * The walk of setNested over the keys of one header: Some(new object), or None when the
   * walk reaches a non-empty string before the last key.
   */
  function SetPath(m: map<string, Value>, keys: seq<string>, v: string): Option<map<string, Value>>
    requires |keys| >= 1
    decreases |keys|
  {
    if |keys| == 1 then Some(m[keys[0] := Str(v)])
    else
      var k := keys[0];
      var child := if k in m && Truthy(m[k]) then m[k] else Obj(map[]);
      match child
      case Str(_) => None
      case Obj(fields) =>
        match SetPath(fields, keys[1..], v)
        case None => None
        case Some(fields') => Some(m[k := Obj(fields')])
  }

  /** A successful walk adds only its first key at the top level and keeps every other top-level key. */
  lemma SetPathTop(m: map<string, Value>, keys: seq<string>, v: string)
    requires |keys| >= 1 && SetPath(m, keys, v).Some?
    ensures SetPath(m, keys, v).value.Keys == m.Keys + {keys[0]}
    ensures forall k :: k in m && k != keys[0] ==> SetPath(m, keys, v).value[k] == m[k]
  {
  }

  /** setNested(obj, path, value): the header is split on '.'. */
  function SetNested(obj: map<string, Value>, path: string, value: string): Option<map<string, Value>> {
    SetPath(obj, Split(path, '.'), value)
  }

  /** After a successful walk the path leads to the assigned string. */
  lemma {:induction false} SetPathStores(m: map<string, Value>, keys: seq<string>, v: string)
    requires |keys| >= 1
    requires SetPath(m, keys, v).Some?
    ensures Get(SetPath(m, keys, v).value, keys) == Some(Str(v))
    decreases |keys|
  {
    if |keys| > 1 {
      var k := keys[0];
      var child := if k in m && Truthy(m[k]) then m[k] else Obj(map[]);
      SetPathStores(child.fields, keys[1..], v);
    }
  }

  /** p is a prefix of q. */
  predicate IsPrefix(p: seq<string>, q: seq<string>) {
    |p| <= |q| && q[..|p|] == p
  }

  /** Neither path is a prefix of the other: they part ways at some key. */
  predicate Diverge(p: seq<string>, q: seq<string>) {
    !IsPrefix(p, q) && !IsPrefix(q, p)
  }

  /** Every path that parts ways with the assigned one reads the same before and after. */
  lemma {:induction false} SetPathFrame(m: map<string, Value>, keys: seq<string>, v: string, p: seq<string>)
    requires |keys| >= 1 && |p| >= 1
    requires SetPath(m, keys, v).Some?
    requires Diverge(p, keys)
    ensures Get(SetPath(m, keys, v).value, p) == Get(m, p)
    decreases |keys|
  {
    var m' := SetPath(m, keys, v).value;
    if p[0] == keys[0] {
      assert |keys| > 1 && |p| > 1;
      var k := keys[0];
      var child := if k in m && Truthy(m[k]) then m[k] else Obj(map[]);
      assert Diverge(p[1..], keys[1..]);
      SetPathFrame(child.fields, keys[1..], v, p[1..]);
      if !(k in m && Truthy(m[k])) {
        GetEmpty(p[1..]);
      }
    }
  }

  lemma GetEmpty(p: seq<string>)
    requires |p| >= 1
    ensures Get(map[], p) == None
  {
  }

  /** The key of p[..j] holds a non-empty string: a walk through it must assign a property on a string. */
  predicate Blocked(m: map<string, Value>, keys: seq<string>, j: nat)
    requires 1 <= j <= |keys|
  {
    var found := Get(m, keys[..j]);
    found.Some? && found.value.Str? && found.value.text != ""
  }

  /**
   * The walk fails exactly when some proper prefix of the path leads to a non-empty
   * string; absent and empty-string slots are replaced by fresh objects instead.
   */
  lemma {:induction false} SetPathFails(m: map<string, Value>, keys: seq<string>, v: string)
    requires |keys| >= 1
    ensures SetPath(m, keys, v).None? <==> exists j :: 1 <= j < |keys| && Blocked(m, keys, j)
    decreases |keys|
  {
    if |keys| > 1 {
      var k := keys[0];
      assert keys[..1] == [k];
      var rest := keys[1..];
      if k in m && Truthy(m[k]) && m[k].Obj? {
        var c := m[k].fields;
        SetPathFails(c, rest, v);
        forall j | 2 <= j < |keys|
          ensures Blocked(m, keys, j) == Blocked(c, rest, j - 1)
        {
          assert keys[..j][1..] == rest[..j - 1];
        }
        if exists j :: 1 <= j < |rest| && Blocked(c, rest, j) {
          var j :| 1 <= j < |rest| && Blocked(c, rest, j);
          assert Blocked(m, keys, j + 1);
        }
        if exists j :: 1 <= j < |keys| && Blocked(m, keys, j) {
          var j :| 1 <= j < |keys| && Blocked(m, keys, j);
          assert j >= 2;
          assert Blocked(c, rest, j - 1);
        }
      } else if k in m && Truthy(m[k]) {
        assert Blocked(m, keys, 1);
      } else {
        SetPathFails(map[], rest, v);
        forall j | 1 <= j < |rest| ensures !Blocked(map[], rest, j) {
          GetEmpty(rest[..j]);
        }
        forall j | 1 <= j < |keys| ensures !Blocked(m, keys, j) {
          if j >= 2 {
            assert keys[..j][1..] == rest[..j - 1];
          }
        }
      }
    }
  }

  /** The example the source documents: setNested({}, "address.line1", "abc") gives { address: { line1: "abc" } }. */
  lemma AddressExample()
    ensures SetNested(map[], "address.line1", "abc") == Some(map["address" := Obj(map["line1" := Str("abc")])])
  {
    SplitJoin(["address", "line1"], '.');
    assert Join(["address", "line1"], '.') == "address.line1";
  }
}
