/** The JavaScript values that the calendar parser hands to the normaliser,
    and the three object operations the normaliser applies to them: a
    property read, an object literal `{ ...o, k: v }`, and `delete o[k]`.
    A plain object is an association list whose order is the order in which
    `Object.keys` and the spread operator visit its own enumerable properties. */
module JsObjects {
  datatype Option<T> = None | Some(value: T)

  /** A parser value. `Opaque` is a class instance the parser builds, such as a
      `Date` or an `rrule`: it has no own enumerable `type` property, and `repr`
      is what it converts to when compared with a string. */
  datatype Value =
    | Undefined
    | Null
    | Bool(b: bool)
    | Num(n: int)
    | Str(s: string)
    | Arr(items: seq<Value>)
    | Obj(fields: seq<(string, Value)>)
    | Opaque(repr: string)

  /** The own properties of one object, in key order. */
  type Fields = seq<(string, Value)>

  /** `Object.keys(o)`. */
  function Keys(f: Fields): seq<string>
  {
    seq(|f|, i requires 0 <= i < |f| => f[i].0)
  }

  /** Every property key occurs once, as in any JavaScript object. */
  predicate DistinctKeys(f: Fields) {
    forall i, j :: 0 <= i < j < |f| ==> f[i].0 != f[j].0
  }

  /** `o[k]`, with `None` for a missing property (`undefined`). */
  function Lookup(f: Fields, k: string): Option<Value>
  {
    if f == [] then None
    else if f[0].0 == k then Some(f[0].1)
    else Lookup(f[1..], k)
  }

  /** `{ ...o, [k]: v }`: the properties of `o` in order, with `k` bound to `v`;
      an existing `k` keeps its position and takes the new value, a new `k` comes last. */
  function Set(f: Fields, k: string, v: Value): (r: Fields)
    ensures Lookup(r, k) == Some(v)
    ensures forall j :: j != k ==> Lookup(r, j) == Lookup(f, j)
  {
    if f == [] then [(k, v)]
    else if f[0].0 == k then [(k, v)] + f[1..]
    else [f[0]] + Set(f[1..], k, v)
  }

  /** `delete o[k]`: `k` is gone and every other property is left as it was. */
  function Delete(f: Fields, k: string): Fields
  {
    if f == [] then []
    else if f[0].0 == k then f[1..]
    else [f[0]] + Delete(f[1..], k)
  }

  /** A property read finds a property that is there, and nothing for a missing key. */
  lemma {:induction false} LookupFinds(f: Fields, k: string)
    ensures Lookup(f, k).Some? ==> (k, Lookup(f, k).value) in f
    ensures Lookup(f, k).None? <==> forall i :: 0 <= i < |f| ==> f[i].0 != k
  {
    if f != [] {
      LookupFinds(f[1..], k);
      if f[0].0 != k {
        assert forall i :: 1 <= i < |f| ==> f[i] == f[1..][i - 1];
      }
    }
  }

  /** In an object with distinct keys, the property read at key `i` gives field `i`.
      This and `DeleteLookup` state what property access and `delete` mean on
      this representation; the normalisation proofs use the narrower lemmas below. */
  lemma LookupAt(f: Fields, i: nat)
    requires DistinctKeys(f) && i < |f|
    ensures Lookup(f, f[i].0) == Some(f[i].1)
  {
    LookupAppend(f[..i], f[i..], f[i].0);
    LookupFinds(f[..i], f[i].0);
    assert f == f[..i] + f[i..];
  }

  /** The object literal keeps the property order: an existing key stays put. */
  lemma {:induction false} SetKeys(f: Fields, k: string, v: Value)
    ensures Keys(Set(f, k, v)) == if Lookup(f, k).Some? then Keys(f) else Keys(f) + [k]
  {
    if f != [] {
      assert f == [f[0]] + f[1..];
      KeysCons(f[0], f[1..]);
      if f[0].0 == k {
        KeysCons((k, v), f[1..]);
      } else {
        SetKeys(f[1..], k, v);
        KeysCons(f[0], Set(f[1..], k, v));
      }
    }
  }

  /** The object literal on a new key appends the binding. */
  lemma {:induction false} SetAbsent(f: Fields, k: string, v: Value)
    requires Lookup(f, k) == None
    ensures Set(f, k, v) == f + [(k, v)]
  {
    if f != [] {
      SetAbsent(f[1..], k, v);
      assert [f[0]] + (f[1..] + [(k, v)]) == f + [(k, v)];
    }
  }

  /** The object literal on an existing key rebinds it where it stands. */
  lemma {:induction false} SetPresent(a: Fields, k: string, prev: Value, b: Fields, v: Value)
    requires Lookup(a, k) == None
    ensures Set(a + [(k, prev)] + b, k, v) == a + [(k, v)] + b
  {
    var f := a + [(k, prev)] + b;
    if a == [] {
      assert f == [(k, prev)] + b;
      assert f[1..] == b;
    } else {
      var rest := a[1..] + [(k, prev)] + b;
      assert f == [a[0]] + rest;
      assert a[0].0 != k && Lookup(a[1..], k) == None;
      SetCons(a[0], rest, k, v);
      SetPresent(a[1..], k, prev, b, v);
      assert [a[0]] + (a[1..] + [(k, v)] + b) == a + [(k, v)] + b;
    }
  }

  lemma SetCons(p: (string, Value), f: Fields, k: string, v: Value)
    requires p.0 != k
    ensures Set([p] + f, k, v) == [p] + Set(f, k, v)
  {
    assert ([p] + f)[0] == p && ([p] + f)[1..] == f;
  }

  lemma KeysCons(p: (string, Value), f: Fields)
    ensures Keys([p] + f) == [p.0] + Keys(f)
  {
  }

  /** The object literal holds the old properties and the new binding, nothing else. */
  lemma {:induction false} SetFields(f: Fields, k: string, v: Value)
    ensures forall p :: p in Set(f, k, v) ==> p in f || p == (k, v)
  {
    if f != [] && f[0].0 != k {
      SetFields(f[1..], k, v);
    }
  }

  /** `delete` removes the key, when keys are distinct, and leaves every other property
      as it was: the meaning of `delete` on this representation (see `LookupAt`). */
  lemma {:induction false} DeleteLookup(f: Fields, k: string)
    ensures DistinctKeys(f) ==> Lookup(Delete(f, k), k) == None
    ensures forall j :: j != k ==> Lookup(Delete(f, k), j) == Lookup(f, j)
    ensures forall p :: p in Delete(f, k) ==> p in f
  {
    if f != [] {
      DeleteLookup(f[1..], k);
      if f[0].0 == k && DistinctKeys(f) {
        LookupFinds(f[1..], k);
        assert forall i :: 0 <= i < |f[1..]| ==> f[1..][i] == f[i + 1];
      }
    }
  }

  /** A property read on a concatenation finds the first part's binding first. */
  lemma {:induction false} LookupAppend(a: Fields, b: Fields, k: string)
    ensures Lookup(a + b, k) == if Lookup(a, k).Some? then Lookup(a, k) else Lookup(b, k)
  {
    if a == [] {
      assert a + b == b;
    } else {
      assert (a + b)[0] == a[0];
      assert (a + b)[1..] == a[1..] + b;
      LookupAppend(a[1..], b, k);
    }
  }

  /** Deleting a key the first part lacks only touches the second part. */
  lemma {:induction false} DeleteAppend(a: Fields, b: Fields, k: string)
    requires Lookup(a, k) == None
    ensures Delete(a + b, k) == a + Delete(b, k)
  {
    if a == [] {
      assert a + b == b;
    } else {
      var rest := a[1..] + b;
      assert a + b == [a[0]] + rest;
      assert a[0].0 != k && Lookup(a[1..], k) == None;
      DeleteCons(a[0], rest, k);
      DeleteAppend(a[1..], b, k);
      assert [a[0]] + (a[1..] + Delete(b, k)) == a + Delete(b, k);
    }
  }

  lemma DeleteCons(p: (string, Value), f: Fields, k: string)
    requires p.0 != k
    ensures Delete([p] + f, k) == [p] + Delete(f, k)
  {
    assert ([p] + f)[0] == p && ([p] + f)[1..] == f;
  }

  /** The type tags the normaliser compares against: non-empty upper-case words. */
  predicate IsTag(tag: string) {
    |tag| > 0 && forall i :: 0 <= i < |tag| ==> 'A' <= tag[i] <= 'Z'
  }

  /** The decimal digits of `n`, as `String(n)` writes them. */
  function NatStr(n: nat): (r: string)
    ensures |r| > 0 && forall i :: 0 <= i < |r| ==> '0' <= r[i] <= '9'
  {
    if n < 10 then [(48 + n) as char] else NatStr(n / 10) + [(48 + n % 10) as char]
  }

  /** `xs.join(",")`. */
  function JoinComma(xs: seq<string>): string
  {
    if |xs| == 0 then "" else if |xs| == 1 then xs[0] else xs[0] + "," + JoinComma(xs[1..])
  }

  /** `String(v)`: the string a value converts to; an array joins its elements
      with commas, writing `null` and `undefined` elements as empty strings. */
  function ToStr(v: Value): string
  {
    match v
    case Undefined => "undefined"
    case Null => "null"
    case Bool(b) => if b then "true" else "false"
    case Num(n) => if n < 0 then "-" + NatStr(-n) else NatStr(n)
    case Str(s) => s
    case Arr(items) =>
      JoinComma(seq(|items|, i requires 0 <= i < |items| =>
        if items[i].Null? || items[i].Undefined? then "" else ToStr(items[i])))
    case Obj(_) => "[object Object]"
    case Opaque(repr) => repr
  }

  /** JavaScript's loose equality `v == tag` against a tag string. A string
      compares by content; an object (array, plain object or class instance)
      converts to a string first, and an array's conversion can only equal a
      comma-free tag when it has one element that converts to the tag; `null`,
      `undefined`, booleans and numbers never equal a tag. `LooseEqualsTagExact`
      proves this against `ToStr`. */
  predicate LooseEqualsTag(v: Value, tag: string)
  {
    match v
    case Str(s) => s == tag
    case Arr(items) => |items| == 1 && LooseEqualsTag(items[0], tag)
    case Opaque(repr) => repr == tag
    case _ => false
  }

  /** A string with a character outside `A`..`Z` is not a tag. */
  lemma NotTag(s: string, i: nat, tag: string)
    requires IsTag(tag) && i < |s| && !('A' <= s[i] <= 'Z')
    ensures s != tag
  {
  }

  lemma {:induction false} JoinCommaHasComma(xs: seq<string>)
    requires |xs| >= 2
    ensures exists i :: 0 <= i < |JoinComma(xs)| && JoinComma(xs)[i] == ','
  {
    assert JoinComma(xs)[|xs[0]|] == ',';
  }

  /** Against a tag, loose equality is exactly equality of the string
      conversion, for every value. */
  lemma {:induction false} LooseEqualsTagExact(v: Value, tag: string)
    requires IsTag(tag)
    ensures LooseEqualsTag(v, tag) <==> ToStr(v) == tag
  {
    match v
    case Undefined => NotTag("undefined", 0, tag);
    case Null => NotTag("null", 0, tag);
    case Bool(b) => if b { NotTag("true", 0, tag); } else { NotTag("false", 0, tag); }
    case Num(n) =>
      if n < 0 { NotTag("-" + NatStr(-n), 0, tag); } else { NotTag(NatStr(n), 0, tag); }
    case Str(_) =>
    case Obj(_) => NotTag("[object Object]", 0, tag);
    case Opaque(_) =>
    case Arr(items) =>
      var parts := seq(|items|, i requires 0 <= i < |items| =>
        if items[i].Null? || items[i].Undefined? then "" else ToStr(items[i]));
      assert ToStr(v) == JoinComma(parts);
      if |items| == 0 {
        assert ToStr(v) == "";
      } else if |items| == 1 {
        assert ToStr(v) == parts[0];
        if items[0].Null? || items[0].Undefined? {
          assert ToStr(v) == "";
        } else {
          LooseEqualsTagExact(items[0], tag);
        }
      } else {
        JoinCommaHasComma(parts);
        var i :| 0 <= i < |JoinComma(parts)| && JoinComma(parts)[i] == ',';
        NotTag(JoinComma(parts), i, tag);
      }
  }
}
