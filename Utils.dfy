/** `BaseToDict` (src/utils.py): an object's attributes turned into a dictionary, dropping the
    names that start with `_`, rounding floats, turning datetimes into timestamps and, in deep
    mode only, descending into nested objects and lists.

    Values are modelled by `Value`. An object is the ordered list of its `__dict__` entries, and
    the dictionary `to_dict` builds is such a list too (the names of an object's `__dict__` are
    distinct, so the list keeps the dictionary's insertion order). `round(x, 3)` and
    `datetime.timestamp()` are parameters (`Env`), since floating-point rounding and timezone
    arithmetic are not modelled. */
module Utils {
  import opened Builtins

  datatype Value =
    | Obj(attrs: seq<Attr>)       // an instance of a `BaseToDict` subclass
    | Dict(entries: seq<Attr>)    // a plain dictionary
    | List(items: seq<Value>)
    | Float(x: real)
    | Date(d: DateTime)
    | Str(s: string)
    | Int(i: int)
    | Null

  datatype Attr = Attr(name: string, value: Value)

  /** `round(·, 3)` and `datetime.timestamp()`. */
  datatype Env = Env(round3: real -> real, timestamp: DateTime -> real)

  /** A name `to_dict` leaves out. */
  predicate IsPrivate(name: string) {
    |name| > 0 && name[0] == '_'
  }

  function Names(attrs: seq<Attr>): (r: seq<string>)
    ensures |r| == |attrs| && forall k :: 0 <= k < |r| ==> r[k] == attrs[k].name
  {
    if attrs == [] then [] else [attrs[0].name] + Names(attrs[1..])
  }

  /** The attributes `to_dict` keeps, in order. */
  function Visible(attrs: seq<Attr>): (r: seq<Attr>)
    ensures |r| <= |attrs|
  {
    if attrs == [] then []
    else (if IsPrivate(attrs[0].name) then [] else [attrs[0]]) + Visible(attrs[1..])
  }

  /** `BaseToDict._to_dict(value, deep)`, case by case in the order the source tests them. */
  function ToDictValue(v: Value, deep: bool, env: Env): Value
    decreases v, 1
  {
    match v
    case Obj(attrs) => if deep then Dict(ToDict(attrs, deep, env)) else Null
    case Date(d) => Float(env.timestamp(d))
    case List(items) => if deep then List(ListToDict(items, deep, env)) else Null
    case Float(x) => Float(env.round3(x))
    case _ => v
  }

  /** `to_dict(deep)`: `{k: _to_dict(v, deep) for k, v in __dict__.items() if not k.startswith("_")}`. */
  function ToDict(attrs: seq<Attr>, deep: bool, env: Env): (r: seq<Attr>)
    ensures |r| <= |attrs|
    decreases attrs, 0
  {
    if attrs == [] then []
    else
      var a := attrs[0];
      assert a.value < a;
      var rest := ToDict(attrs[1..], deep, env);
      if IsPrivate(a.name) then rest else [Attr(a.name, ToDictValue(a.value, deep, env))] + rest
  }

  /** The elements of a list in deep mode: those with a `to_dict` method serialised, the rest kept
      exactly as they are (in particular, floats in a list are not rounded). */
  function ListToDict(items: seq<Value>, deep: bool, env: Env): (r: seq<Value>)
    ensures |r| == |items|
    ensures forall k :: 0 <= k < |r| ==>
      r[k] == if items[k].Obj? then Dict(ToDict(items[k].attrs, deep, env)) else items[k]
    decreases items, 0
  {
    if items == [] then []
    else
      var v := items[0];
      var rest := ListToDict(items[1..], deep, env);
      var r := [if v.Obj? then Dict(ToDict(v.attrs, deep, env)) else v] + rest;
      assert forall k :: 1 <= k < |r| ==> r[k] == rest[k - 1] && items[k] == items[1..][k - 1];
      r
  }

  // ---------------------------------------------------------------- what to_dict promises

  lemma NamesCons(a: Attr, rest: seq<Attr>)
    ensures Names([a] + rest) == [a.name] + Names(rest)
  {
    assert ([a] + rest)[1..] == rest;
  }

  lemma ToDictCons(a: Attr, rest: seq<Attr>, deep: bool, env: Env)
    ensures ToDict([a] + rest, deep, env)
      == (if IsPrivate(a.name) then [] else [Attr(a.name, ToDictValue(a.value, deep, env))]) + ToDict(rest, deep, env)
  {
    assert ([a] + rest)[1..] == rest;
  }

  lemma VisibleCons(a: Attr, rest: seq<Attr>)
    ensures Visible([a] + rest) == (if IsPrivate(a.name) then [] else [a]) + Visible(rest)
  {
    assert ([a] + rest)[1..] == rest;
  }

  /** The names in the output are the names of the attributes that do not start with `_`, in
      the order of the attributes. */
  lemma {:induction false} ToDictNames(attrs: seq<Attr>, deep: bool, env: Env)
    ensures Names(ToDict(attrs, deep, env)) == Names(Visible(attrs))
    decreases attrs
  {
    if attrs != [] {
      ToDictNames(attrs[1..], deep, env);
      var a := attrs[0];
      assert attrs == [a] + attrs[1..];
      ToDictCons(a, attrs[1..], deep, env);
      VisibleCons(a, attrs[1..]);
      if !IsPrivate(a.name) {
        NamesCons(Attr(a.name, ToDictValue(a.value, deep, env)), ToDict(attrs[1..], deep, env));
        NamesCons(a, Visible(attrs[1..]));
      } else {
        assert [] + Visible(attrs[1..]) == Visible(attrs[1..]);
        assert [] + ToDict(attrs[1..], deep, env) == ToDict(attrs[1..], deep, env);
      }
    }
  }

  /** A name is kept exactly when it is an attribute name that does not start with `_`. */
  lemma {:induction false} VisibleNames(attrs: seq<Attr>, n: string)
    ensures n in Names(Visible(attrs)) <==> n in Names(attrs) && !IsPrivate(n)
    decreases attrs
  {
    if attrs != [] {
      VisibleNames(attrs[1..], n);
      var a := attrs[0];
      assert attrs == [a] + attrs[1..];
      NamesCons(a, attrs[1..]);
      VisibleCons(a, attrs[1..]);
      if !IsPrivate(a.name) {
        NamesCons(a, Visible(attrs[1..]));
      } else {
        assert [] + Visible(attrs[1..]) == Visible(attrs[1..]);
      }
    }
  }

  /** Attributes starting with `_` never influence the output, whatever they hold. */
  lemma {:induction false} PrivateIrrelevant(attrs: seq<Attr>, deep: bool, env: Env)
    ensures ToDict(attrs, deep, env) == ToDict(Visible(attrs), deep, env)
    decreases attrs
  {
    if attrs != [] {
      PrivateIrrelevant(attrs[1..], deep, env);
      var a := attrs[0];
      assert attrs == [a] + attrs[1..];
      ToDictCons(a, attrs[1..], deep, env);
      VisibleCons(a, attrs[1..]);
      if !IsPrivate(a.name) {
        ToDictCons(a, Visible(attrs[1..]), deep, env);
      } else {
        assert [] + Visible(attrs[1..]) == Visible(attrs[1..]);
        assert [] + ToDict(attrs[1..], deep, env) == ToDict(attrs[1..], deep, env);
      }
    }
  }

  /** The value stored under `name`, the first time it occurs. */
  function Lookup(attrs: seq<Attr>, name: string): (r: Option<Value>)
    ensures r.Some? <==> name in Names(attrs)
  {
    if attrs == [] then None
    else if attrs[0].name == name then Some(attrs[0].value)
    else Lookup(attrs[1..], name)
  }

  /** `Lookup` on a suffix, one attribute at a time. */
  lemma LookupStep(attrs: seq<Attr>, name: string, k: nat)
    requires k < |attrs|
    ensures Lookup(attrs[k..], name)
      == if attrs[k].name == name then Some(attrs[k].value) else Lookup(attrs[k + 1..], name)
  {
    assert attrs[k..][1..] == attrs[k + 1..];
  }

  /** A visible attribute is found in the output under its own name, serialised. */
  lemma {:induction false} ToDictLookup(attrs: seq<Attr>, name: string, deep: bool, env: Env)
    requires !IsPrivate(name)
    ensures Lookup(attrs, name).Some? ==>
      Lookup(ToDict(attrs, deep, env), name) == Some(ToDictValue(Lookup(attrs, name).value, deep, env))
    ensures Lookup(attrs, name).None? ==> Lookup(ToDict(attrs, deep, env), name).None?
    decreases attrs
  {
    if attrs != [] {
      ToDictLookup(attrs[1..], name, deep, env);
      var r := ToDict(attrs, deep, env);
      if !IsPrivate(attrs[0].name) {
        assert r[1..] == ToDict(attrs[1..], deep, env);
      }
    }
  }

  /** The `deep` flag matters only for objects and lists: an attribute holding anything else is
      serialised the same way in both modes, and one holding an object or a list is `None` in
      shallow mode. */
  lemma DeepAgreesWithShallow(attrs: seq<Attr>, name: string, env: Env)
    requires !IsPrivate(name) && Lookup(attrs, name).Some?
    ensures var v := Lookup(attrs, name).value;
      && (!(v.Obj? || v.List?) ==> Lookup(ToDict(attrs, true, env), name) == Lookup(ToDict(attrs, false, env), name))
      && ((v.Obj? || v.List?) ==> Lookup(ToDict(attrs, false, env), name) == Some(Null))
  {
    ToDictLookup(attrs, name, true, env);
    ToDictLookup(attrs, name, false, env);
  }

  /** What a visible attribute becomes: a float is rounded, a datetime becomes its timestamp, a
      nested object becomes its own dictionary in deep mode and `None` in shallow mode, a list
      likewise, and a string, an int, `None` or a plain dictionary is stored unchanged. */
  lemma SerialisedAttribute(attrs: seq<Attr>, name: string, deep: bool, env: Env)
    requires !IsPrivate(name) && Lookup(attrs, name).Some?
    ensures var v, out := Lookup(attrs, name).value, Lookup(ToDict(attrs, deep, env), name);
      && (v.Float? ==> out == Some(Float(env.round3(v.x))))
      && (v.Date? ==> out == Some(Float(env.timestamp(v.d))))
      && (v.Obj? ==> out == Some(if deep then Dict(ToDict(v.attrs, deep, env)) else Null))
      && (v.List? ==> out == Some(if deep then List(ListToDict(v.items, deep, env)) else Null))
      && ((v.Str? || v.Int? || v.Null? || v.Dict?) ==> out == Some(v))
  {
    ToDictLookup(attrs, name, deep, env);
  }
}
