/** The payload algebra of the research workers: recursive merge, stripping of
    default-only fields, and what both mean for a dotted field path. */
module Payload {
  import opened Text
  import opened JsonModel

  // ---- deep_merge ----

  /** The value of `key` after merging `updates` over `base`. */
  function MergedValue(base: Dict, updates: Dict, key: string): Json
    requires key in base || key in updates
    decreases Obj(updates), 0
  {
    if key !in updates then base[key]
    else if key in base && base[key].Obj? && updates[key].Obj? then
      Obj(Merge(base[key].fields, updates[key].fields))
    else updates[key]
  }

  function Merge(base: Dict, updates: Dict): Dict
    decreases Obj(updates), 1
  {
    map key | key in base.Keys + updates.Keys :: MergedValue(base, updates, key)
  }

  lemma SameMap(m: Dict, n: Dict)
    requires m.Keys == n.Keys
    requires forall key | key in m :: m[key] == n[key]
    ensures m == n
  {
  }

  lemma MergeUntouched(base: Dict, updates: Dict)
    ensures forall key | key in base && key !in updates :: Merge(base, updates)[key] == base[key]
  {
    forall key | key in base && key !in updates
      ensures Merge(base, updates)[key] == base[key]
    {
      assert Merge(base, updates)[key] == MergedValue(base, updates, key);
    }
  }

  /** The merge loop: start from the base and overwrite or recurse, key by key. */
  method DeepMerge(base: Dict, updates: Dict) returns (merged: Dict)
    ensures merged == Merge(base, updates)
    decreases Obj(updates)
  {
    ghost var goal := Merge(base, updates);
    MergeUntouched(base, updates);
    merged := base;
    var todo := updates.Keys;
    while todo != {}
      invariant todo <= updates.Keys
      invariant forall key :: key in merged <==> key in base || (key in goal && key !in todo)
      invariant forall key | key in todo && key in base :: merged[key] == base[key]
      invariant forall key | key in merged && key !in todo :: merged[key] == goal[key]
      decreases todo
    {
      var key :| key in todo;
      var value := updates[key];
      if value.Obj? && key in merged && merged[key].Obj? {
        var inner := DeepMerge(merged[key].fields, value.fields);
        value := Obj(inner);
      }
      assert value == goal[key] by {
        assert goal[key] == MergedValue(base, updates, key);
      }
      merged := merged[key := value];
      todo := todo - {key};
    }
    SameMap(merged, goal);
  }

  /** The empty dictionary is a two-sided identity. */
  lemma MergeIdentity(d: Dict)
    ensures Merge(map[], d) == d
    ensures Merge(d, map[]) == d
  {
  }

  /** Every key of `a` is already in `c`, and recursively so where both hold dictionaries. */
  predicate Covered(a: Dict, c: Dict)
    decreases Obj(a)
  {
    forall key | key in a ::
      key in c && (a[key].Obj? && c[key].Obj? ==> Covered(a[key].fields, c[key].fields))
  }

  /** Merging `c` over `a` gives back `c` exactly when `c` covers `a`. */
  lemma {:induction false} MergeAbsorbs(a: Dict, c: Dict)
    ensures Merge(a, c) == c <==> Covered(a, c)
    decreases Obj(a)
  {
    var m := Merge(a, c);
    forall key | key in a && key in c && a[key].Obj? && c[key].Obj?
      ensures m[key] == c[key] <==> Covered(a[key].fields, c[key].fields)
    {
      MergeAbsorbs(a[key].fields, c[key].fields);
      assert m[key] == MergedValue(a, c, key) == Obj(Merge(a[key].fields, c[key].fields));
      assert c[key] == Obj(c[key].fields);
    }
    if Covered(a, c) {
      assert m.Keys == c.Keys;
    } else if m == c {
      forall key | key in a
        ensures key in c
      {
        assert key in m;
      }
    }
  }

  lemma {:induction false} CoveredByMerge(b: Dict, u: Dict)
    ensures Covered(u, Merge(b, u))
    decreases Obj(u)
  {
    forall key | key in u && u[key].Obj? && Merge(b, u)[key].Obj?
      ensures Covered(u[key].fields, Merge(b, u)[key].fields)
    {
      if key in b && b[key].Obj? {
        CoveredByMerge(b[key].fields, u[key].fields);
      } else {
        CoveredByMerge(map[], u[key].fields);
        MergeIdentity(u[key].fields);
      }
    }
  }

  /** Merging the same updates twice is merging them once. */
  lemma {:induction false} MergeIdempotent(b: Dict, u: Dict)
    ensures Merge(Merge(b, u), u) == Merge(b, u)
    decreases Obj(u)
  {
    forall key | key in u && u[key].Obj?
      ensures MergedValue(Merge(b, u), u, key) == MergedValue(b, u, key)
    {
      if key in b && b[key].Obj? {
        MergeIdempotent(b[key].fields, u[key].fields);
      } else {
        CoveredByMerge(map[], u[key].fields);
        MergeIdentity(u[key].fields);
        MergeAbsorbs(u[key].fields, u[key].fields);
      }
    }
  }

  /** Regrouping two merges is harmless: wherever `a` and `c` hold dictionaries under the
      same path, `b` holds one too, or `c` covers what `a` has there. */
  predicate Regroupable(a: Dict, b: Dict, c: Dict)
    decreases Obj(a)
  {
    forall key | key in a && key in b && key in c && a[key].Obj? && c[key].Obj? ::
      if b[key].Obj? then Regroupable(a[key].fields, b[key].fields, c[key].fields)
      else Covered(a[key].fields, c[key].fields)
  }

  /** Associativity of deep merge holds exactly for regroupable operands. */
  lemma {:induction false} MergeAssociative(a: Dict, b: Dict, c: Dict)
    ensures Merge(Merge(a, b), c) == Merge(a, Merge(b, c)) <==> Regroupable(a, b, c)
    decreases Obj(a)
  {
    var left, right := Merge(Merge(a, b), c), Merge(a, Merge(b, c));
    assert left.Keys == right.Keys;
    forall key | key in left
      ensures left[key] == right[key] <==>
              (key in a && key in b && key in c && a[key].Obj? && c[key].Obj? ==>
                 if b[key].Obj? then Regroupable(a[key].fields, b[key].fields, c[key].fields)
                 else Covered(a[key].fields, c[key].fields))
    {
      MergeAssociativeAt(a, b, c, key);
    }
    if left == right {
      assert forall key | key in a && key in b && key in c :: key in left;
    }
  }

  lemma {:induction false} MergeAssociativeAt(a: Dict, b: Dict, c: Dict, key: string)
    requires key in a || key in b || key in c
    ensures Merge(Merge(a, b), c)[key] == Merge(a, Merge(b, c))[key] <==>
            (key in a && key in b && key in c && a[key].Obj? && c[key].Obj? ==>
               if b[key].Obj? then Regroupable(a[key].fields, b[key].fields, c[key].fields)
               else Covered(a[key].fields, c[key].fields))
    decreases Obj(a), 0
  {
    if key in a && key in b && key in c && a[key].Obj? && c[key].Obj? {
      if b[key].Obj? {
        MergeAssociative(a[key].fields, b[key].fields, c[key].fields);
      } else {
        MergeAbsorbs(a[key].fields, c[key].fields);
      }
    }
  }

  /** The three operands agree, at each shared path, on dictionary versus non-dictionary. */
  predicate SameShape(a: Dict, b: Dict, c: Dict)
    decreases Obj(a)
  {
    forall key | key in a && key in b && key in c ::
      && a[key].Obj? == b[key].Obj? == c[key].Obj?
      && (a[key].Obj? ==> SameShape(a[key].fields, b[key].fields, c[key].fields))
  }

  lemma {:induction false} SameShapeRegroups(a: Dict, b: Dict, c: Dict)
    requires SameShape(a, b, c)
    ensures Regroupable(a, b, c)
    decreases Obj(a)
  {
    forall key | key in a && key in b && key in c && a[key].Obj? && c[key].Obj?
      ensures Regroupable(a[key].fields, b[key].fields, c[key].fields)
    {
      SameShapeRegroups(a[key].fields, b[key].fields, c[key].fields);
    }
  }

  /** A concrete failure: a non-dictionary in the middle forgets the older dictionary
      when the merges are grouped to the left, and not when they are grouped to the right. */
  lemma MergeNotAssociative()
    ensures var a := map["peers" := Obj(map["assessment" := Str("tight")])];
            var b := map["peers" := Str("n/v")];
            var c := map["peers" := Obj(map["companies" := Arr([])])];
            Merge(Merge(a, b), c) != Merge(a, Merge(b, c))
  {
    var inner := map["assessment" := Str("tight")];
    var a := map["peers" := Obj(inner)];
    var b := map["peers" := Str("n/v")];
    var c := map["peers" := Obj(map["companies" := Arr([])])];
    assert "assessment" in inner;
    assert "peers" in a && !Covered(inner, c["peers"].fields);
    MergeAssociative(a, b, c);
  }

  // ---- merge seen through a dotted path ----

  /** How a path meets a set of updates. */
  datatype Touch =
    | Untouched            // some step of the path is missing from the updates
    | Cut                  // a proper prefix of the path ends in a non-dictionary
    | Leaf(value: Json)    // the path ends in a non-dictionary
    | Inner(part: Dict)    // the path ends in a dictionary

  function TouchAt(updates: Dict, path: seq<string>): Touch
    requires path != []
    decreases |path|
  {
    if path[0] !in updates then Untouched
    else
      var v := updates[path[0]];
      if |path| == 1 then (if v.Obj? then Inner(v.fields) else Leaf(v))
      else if v.Obj? then TouchAt(v.fields, path[1..])
      else Cut
  }

  lemma WalkEmpty(path: seq<string>)
    requires path != []
    ensures Walk(Obj(map[]), path) == Null
  {
    WalkNull(path[1..]);
  }

  /** A merge read through any path: an untouched path keeps the base value, a leaf of the
      updates wins, a cut path reads null, a dictionary merges with the base dictionary. */
  lemma {:induction false} MergeFrame(base: Dict, updates: Dict, path: seq<string>)
    requires path != []
    ensures var merged := Walk(Obj(Merge(base, updates)), path);
            var before := Walk(Obj(base), path);
            match TouchAt(updates, path)
            case Untouched => merged == before
            case Cut => merged == Null
            case Leaf(value) => merged == value
            case Inner(part) => merged == Obj(if before.Obj? then Merge(before.fields, part) else part)
    decreases |path|
  {
    var rest := path[1..];
    if path[0] in updates && updates[path[0]].Obj? && rest != [] {
      var u := updates[path[0]].fields;
      if path[0] in base && base[path[0]].Obj? {
        MergeFrame(base[path[0]].fields, u, rest);
      } else {
        MergeFrame(map[], u, rest);
        MergeIdentity(u);
        WalkEmpty(rest);
      }
    }
  }

  // ---- _strip_default_only_payload ----

  /** A field survives stripping. Note that null survives: only strings, lists and
      dictionaries are ever dropped. */
  predicate Kept(v: Json)
    decreases v, 1
  {
    match v
    case Str(s) => !Placeholder(s)
    case Arr(items) => items != []
    case Obj(fields) => Strip(fields) != map[]
    case _ => true
  }

  function Strip(payload: Dict): Dict
    decreases Obj(payload), 0
  {
    map key | key in payload && Kept(payload[key]) ::
      match payload[key] case Obj(fields) => Obj(Strip(fields)) case v => v
  }

  method StripDefaultOnlyPayload(payload: Dict) returns (stripped: Dict)
    ensures stripped == Strip(payload)
    decreases Obj(payload)
  {
    stripped := map[];
    var todo := payload.Keys;
    while todo != {}
      invariant todo <= payload.Keys
      invariant stripped == map key | key in Strip(payload) && key !in todo :: Strip(payload)[key]
      decreases todo
    {
      var key :| key in todo;
      var v := payload[key];
      todo := todo - {key};
      if v.Str? && Placeholder(v.s) {
        continue;
      }
      if v.Arr? && |v.items| == 0 {
        continue;
      }
      if v.Obj? {
        var inner := StripDefaultOnlyPayload(v.fields);
        if inner != map[] {
          stripped := stripped[key := Obj(inner)];
        }
        continue;
      }
      stripped := stripped[key := v];
    }
  }

  /** No placeholder string, empty list or empty dictionary at any dictionary-nested depth. */
  predicate Clean(payload: Dict)
    decreases Obj(payload)
  {
    forall key | key in payload ::
      match payload[key]
      case Str(s) => !Placeholder(s)
      case Arr(items) => items != []
      case Obj(fields) => fields != map[] && Clean(fields)
      case _ => true
  }

  lemma {:induction false} StripCleans(p: Dict)
    ensures Clean(Strip(p))
    decreases Obj(p)
  {
    forall key | key in p && p[key].Obj?
      ensures Clean(Strip(p[key].fields))
    {
      StripCleans(p[key].fields);
    }
  }

  /** The clean payloads are exactly the fixed points of stripping, so stripping is idempotent. */
  lemma {:induction false} StripFixedPoints(p: Dict)
    ensures Strip(p) == p <==> Clean(p)
    decreases Obj(p)
  {
    if Strip(p) == p {
      StripCleans(p);
    }
    if Clean(p) {
      forall key | key in p && p[key].Obj?
        ensures Strip(p[key].fields) == p[key].fields
      {
        StripFixedPoints(p[key].fields);
      }
    }
  }

  lemma StripIdempotent(p: Dict)
    ensures Strip(Strip(p)) == Strip(p)
  {
    StripCleans(p);
    StripFixedPoints(Strip(p));
  }

  /** Nothing is lost: merging the stripped copy over the original, or the original over the
      stripped copy, gives the original. */
  lemma {:induction false} StripMergesBack(p: Dict)
    ensures Merge(p, Strip(p)) == p
    ensures Merge(Strip(p), p) == p
    decreases Obj(p)
  {
    forall key | key in p && p[key].Obj?
      ensures Merge(p[key].fields, Strip(p[key].fields)) == p[key].fields
      ensures Merge(Strip(p[key].fields), p[key].fields) == p[key].fields
    {
      StripMergesBack(p[key].fields);
    }
  }

  /** What stripping leaves of a single value. */
  function Stripped(v: Json): Json {
    if !Kept(v) then Null
    else match v case Obj(fields) => Obj(Strip(fields)) case _ => v
  }

  /** Stripping commutes with reading any path: every non-default leaf is found where it was,
      every default leaf and every dictionary that strips to nothing reads null. */
  lemma {:induction false} StripFrame(p: Dict, path: seq<string>)
    requires path != []
    ensures Walk(Obj(Strip(p)), path) == Stripped(Walk(Obj(p), path))
    decreases |path|
  {
    var rest := path[1..];
    WalkNull(rest);
    if path[0] in p && rest != [] && p[path[0]].Obj? {
      var inner := p[path[0]].fields;
      StripFrame(inner, rest);
      if Strip(inner) == map[] {
        WalkEmpty(rest);
      }
    }
  }
}
