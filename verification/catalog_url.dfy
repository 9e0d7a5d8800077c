/**
 * The page's query string as the catalog script reads and rewrites it through
 * `URLSearchParams`: an ordered list of name/value pairs, with `get`, `set` and
 * `delete` as the URL Standard (WHATWG) defines them.
 */
module CatalogUrl {
  import opened Wrappers

  datatype Param = Param(name: string, value: string)

  type Query = seq<Param>

  predicate HasName(q: Query, name: string) {
    exists i :: 0 <= i < |q| && q[i].name == name
  }

  /** `searchParams.get(name)`: the value of the first pair with that name, or null. */
  function Get(q: Query, name: string): (r: Option<string>)
    ensures r.None? <==> !HasName(q, name)
  {
    if q == [] then None
    else if q[0].name == name then Some(q[0].value)
    else Get(q[1..], name)
  }

  /** `searchParams.delete(name)`: every pair with that name goes, the others stay in order. */
  function Delete(q: Query, name: string): (r: Query)
    ensures !HasName(r, name)
    ensures forall p :: p in r <==> p in q && p.name != name
  {
    if q == [] then []
    else (if q[0].name == name then [] else [q[0]]) + Delete(q[1..], name)
  }

  /** The first pair with the name takes the value; later pairs with the name are removed. */
  function SetFirst(q: Query, name: string, value: string): (r: Query)
    requires HasName(q, name)
  {
    if q[0].name == name then [Param(name, value)] + Delete(q[1..], name)
    else [q[0]] + SetFirst(q[1..], name, value)
  }

  /** `searchParams.set(name, value)`: replace in place when present, append otherwise. */
  function Set(q: Query, name: string, value: string): Query {
    if HasName(q, name) then SetFirst(q, name, value) else q + [Param(name, value)]
  }

  /** The pairs whose name is none of `names`, in order. */
  function Keep(q: Query, names: seq<string>): (r: Query)
    ensures forall p :: p in r <==> p in q && p.name !in names
  {
    if q == [] then []
    else (if q[0].name in names then [] else [q[0]]) + Keep(q[1..], names)
  }

  lemma {:induction false} GetAppend(q: Query, p: Param, name: string)
    ensures Get(q + [p], name) == if HasName(q, name) then Get(q, name)
                                  else if p.name == name then Some(p.value) else None
  {
    if q != [] {
      assert (q + [p])[1..] == q[1..] + [p];
      GetAppend(q[1..], p, name);
      if q[0].name != name {
        assert HasName(q, name) ==> HasName(q[1..], name) by {
          if HasName(q, name) {
            var i :| 0 <= i < |q| && q[i].name == name;
            assert q[1..][i - 1].name == name;
          }
        }
      }
    }
  }

  lemma {:induction false} GetDelete(q: Query, name: string, other: string)
    requires other != name
    ensures Get(Delete(q, name), other) == Get(q, other)
  {
    if q != [] {
      var rest := Delete(q[1..], name);
      GetDelete(q[1..], name, other);
      if q[0].name == name {
        assert Delete(q, name) == rest;
      } else {
        assert Delete(q, name) == [q[0]] + rest;
        assert ([q[0]] + rest)[1..] == rest;
      }
    }
  }

  lemma {:induction false} GetSetFirst(q: Query, name: string, value: string, other: string)
    requires HasName(q, name)
    ensures Get(SetFirst(q, name, value), name) == Some(value)
    ensures other != name ==> Get(SetFirst(q, name, value), other) == Get(q, other)
  {
    if q[0].name == name {
      if other != name {
        GetDelete(q[1..], name, other);
      }
    } else {
      var i :| 0 <= i < |q| && q[i].name == name;
      assert q[1..][i - 1].name == name;
      GetSetFirst(q[1..], name, value, other);
    }
  }

  /** After `set`, `get` returns the new value, and every other name reads as before. */
  lemma GetSet(q: Query, name: string, value: string, other: string)
    ensures Get(Set(q, name, value), name) == Some(value)
    ensures other != name ==> Get(Set(q, name, value), other) == Get(q, other)
  {
    if HasName(q, name) {
      GetSetFirst(q, name, value, other);
    } else {
      GetAppend(q, Param(name, value), name);
      GetAppend(q, Param(name, value), other);
    }
  }

  lemma {:induction false} KeepAppend(a: Query, b: Query, names: seq<string>)
    ensures Keep(a + b, names) == Keep(a, names) + Keep(b, names)
  {
    if a == [] {
      assert a + b == b;
    } else {
      assert (a + b)[1..] == a[1..] + b;
      KeepAppend(a[1..], b, names);
    }
  }

  lemma {:induction false} KeepDelete(q: Query, name: string, names: seq<string>)
    requires name in names
    ensures Keep(Delete(q, name), names) == Keep(q, names)
  {
    if q != [] {
      KeepDelete(q[1..], name, names);
      KeepAppend(if q[0].name == name then [] else [q[0]], Delete(q[1..], name), names);
      assert Keep([q[0]], names) == if q[0].name in names then [] else [q[0]] by {
        assert [q[0]][1..] == [];
      }
    }
  }

  lemma {:induction false} KeepSetFirst(q: Query, name: string, value: string, names: seq<string>)
    requires HasName(q, name) && name in names
    ensures Keep(SetFirst(q, name, value), names) == Keep(q, names)
  {
    var head := if q[0].name == name then [Param(name, value)] else [q[0]];
    assert Keep(head, names) == if q[0].name in names then [] else [q[0]] by {
      assert head[1..] == [];
    }
    if q[0].name == name {
      KeepDelete(q[1..], name, names);
      KeepAppend(head, Delete(q[1..], name), names);
    } else {
      var i :| 0 <= i < |q| && q[i].name == name;
      assert q[1..][i - 1].name == name;
      KeepSetFirst(q[1..], name, value, names);
      KeepAppend(head, SetFirst(q[1..], name, value), names);
    }
  }

  /** `set` and `delete` on a name in `names` leave the pairs with other names, and their order, alone. */
  lemma KeepSetDelete(q: Query, name: string, value: string, names: seq<string>)
    requires name in names
    ensures Keep(Set(q, name, value), names) == Keep(q, names)
    ensures Keep(Delete(q, name), names) == Keep(q, names)
  {
    KeepDelete(q, name, names);
    if HasName(q, name) {
      KeepSetFirst(q, name, value, names);
    } else {
      KeepAppend(q, [Param(name, value)], names);
      assert [Param(name, value)][1..] == [];
    }
  }

  /** A parameter value `updateUrlParams` deletes instead of setting: null, undefined or `all`. */
  predicate Dropped(v: Option<string>) {
    v.None? || v == Some("all")
  }

  /** The value a parameter reads back as after `updateUrlParams`. */
  function Effective(v: Option<string>): (r: Option<string>)
    ensures r.None? <==> Dropped(v)
  {
    if Dropped(v) then None else v
  }

  function Names(params: seq<(string, Option<string>)>): (names: seq<string>)
    ensures |names| == |params|
    ensures forall i :: 0 <= i < |params| ==> names[i] == params[i].0
  {
    seq(|params|, i requires 0 <= i < |params| => params[i].0)
  }

  predicate DistinctNames(params: seq<(string, Option<string>)>) {
    forall i, j :: 0 <= i < j < |params| ==> params[i].0 != params[j].0
  }

  /**
   * `updateUrlParams(params)` on the page's query: each key, in order, is deleted when its
   * value is dropped and set otherwise. Afterwards each key reads back as its effective
   * value, other names read as before, and the pairs with other names keep their order.
   * The keys of a JavaScript object are distinct.
   */
  method UpdateUrlParams(q: Query, params: seq<(string, Option<string>)>) returns (r: Query)
    requires DistinctNames(params)
    ensures forall i :: 0 <= i < |params| ==> Get(r, params[i].0) == Effective(params[i].1)
    ensures forall name :: name !in Names(params) ==> Get(r, name) == Get(q, name)
    ensures Keep(r, Names(params)) == Keep(q, Names(params))
  {
    var names := Names(params);
    r := q;
    var i := 0;
    while i < |params|
      invariant 0 <= i <= |params|
      invariant forall k :: 0 <= k < i ==> Get(r, params[k].0) == Effective(params[k].1)
      invariant forall name :: name !in names[..i] ==> Get(r, name) == Get(q, name)
      invariant Keep(r, names) == Keep(q, names)
    {
      var (k, v) := params[i];
      assert k in names;
      ghost var before := r;
      if v == None || v == Some("all") {
        r := Delete(r, k);
        forall other | other != k ensures Get(r, other) == Get(before, other) {
          GetDelete(before, k, other);
        }
      } else {
        r := Set(r, k, v.value);
        forall other | other != k ensures Get(r, other) == Get(before, other) {
          GetSet(before, k, v.value, other);
        }
        GetSet(before, k, v.value, k);
      }
      KeepSetDelete(before, k, if v.Some? then v.value else "", names);
      assert names[..i + 1] == names[..i] + [k];
      i := i + 1;
    }
  }

  /**
   * The parameters `applyFiltersAndRender` passes: the category, null when it is `all`,
   * and the sort, null when it is `featured`.
   */
  function RenderParams(category: string, sort: string): (params: seq<(string, Option<string>)>)
    ensures DistinctNames(params)
  {
    [("category", if category == "all" then None else Some(category)),
     ("sort", if sort == "featured" then None else Some(sort))]
  }

  /**
   * What the shared URL keeps after a render: no `category` for `all`, no `sort` for
   * `featured` (nor for a sort value of `all`), the selected values otherwise.
   */
  lemma RenderParamsEffect(category: string, sort: string)
    ensures var p := RenderParams(category, sort);
            Effective(p[0].1) == (if category == "all" then None else Some(category))
            && Effective(p[1].1) == (if sort == "featured" || sort == "all" then None else Some(sort))
  {
  }
}
