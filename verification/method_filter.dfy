/** The order-preserving filter of minesweeper/util.py, apply_method_filter: keep the objects on
    which every named method returns its expected value. A method is looked up by name on the
    object; looking up a name the object lacks raises, which ends the whole filter. */
module MethodFilter {
  import opened Common

  /** Calling the named method on an object: its return value, or None when the object has no
      method of that name. */
  type Lookup<!T, V> = (T, string) -> Option<V>

  /** The verdict of is_valid on one object. */
  datatype Verdict = Valid | Invalid | Missing(name: string)

  /** is_valid: the filters are tried in order; the first mismatch rejects the object, and a
      missing method met before any mismatch raises. */
  function Check<T, V(==)>(call: Lookup<T, V>, filters: seq<(string, V)>, o: T): (r: Verdict)
    ensures r == Valid <==> forall i | 0 <= i < |filters| :: call(o, filters[i].0) == Some(filters[i].1)
    ensures r.Missing? ==>
              exists k | 0 <= k < |filters| ::
                && call(o, filters[k].0).None? && r.name == filters[k].0
                && forall i | 0 <= i < k :: call(o, filters[i].0) == Some(filters[i].1)
    decreases |filters|
  {
    if filters == [] then Valid
    else
      match call(o, filters[0].0)
      case None => Missing(filters[0].0)
      case Some(v) =>
        if v != filters[0].1 then Invalid
        else
          assert forall i | 1 <= i < |filters| :: filters[i] == filters[1..][i - 1];
          Check(call, filters[1..], o)
  }

  /** `a` is `b` with some elements left out, the rest kept in their order. */
  predicate SubSeq<T(==)>(a: seq<T>, b: seq<T>)
    decreases |b|
  {
    if a == [] then true
    else if b == [] then false
    else (a[0] == b[0] && SubSeq(a[1..], b[1..])) || SubSeq(a, b[1..])
  }

  /** The objects that pass every filter, in their order: the list apply_method_filter builds
      when no lookup fails. It leaves objects out, keeps the order of the rest, and holds
      every occurrence of a passing object and none of a failing one. */
  function Keep<T(==), V(==)>(call: Lookup<T, V>, filters: seq<(string, V)>, xs: seq<T>): (r: seq<T>)
    ensures SubSeq(r, xs)
    ensures forall o | o in r :: o in xs && Check(call, filters, o) == Valid
    ensures forall o | o in xs && Check(call, filters, o) == Valid :: o in r
    decreases |xs|
  {
    if xs == [] then []
    else
      var tail := Keep(call, filters, xs[1..]);
      assert forall o | o in xs[1..] :: o in xs;
      assert forall o | o in xs :: o == xs[0] || o in xs[1..];
      if Check(call, filters, xs[0]) == Valid then [xs[0]] + tail else tail
  }

  /** The filter keeps every occurrence of a passing object and none of a failing one. */
  lemma {:induction false} KeepCounts<T, V>(call: Lookup<T, V>, filters: seq<(string, V)>, xs: seq<T>)
    ensures forall o | o in xs ::
              multiset(Keep(call, filters, xs))[o] == if Check(call, filters, o) == Valid then multiset(xs)[o] else 0
    decreases |xs|
  {
    if xs != [] {
      KeepCounts(call, filters, xs[1..]);
      var tail := Keep(call, filters, xs[1..]);
      assert xs == [xs[0]] + xs[1..];
      assert multiset(xs) == multiset{xs[0]} + multiset(xs[1..]);
      assert multiset([xs[0]] + tail) == multiset{xs[0]} + multiset(tail);
      forall o | o in xs
        ensures multiset(Keep(call, filters, xs))[o] == if Check(call, filters, o) == Valid then multiset(xs)[o] else 0
      {
        if o !in xs[1..] {
          assert multiset(xs[1..])[o] == 0;
          assert multiset(tail)[o] == 0;
        }
      }
    }
  }

  /** The position of the first verdict that is a missing method, if any. */
  function {:induction false} FirstMissing(vs: seq<Verdict>): (r: Option<nat>)
    ensures r.None? <==> forall j | 0 <= j < |vs| :: !vs[j].Missing?
    ensures r.Some? ==>
              && r.value < |vs| && vs[r.value].Missing?
              && forall j | 0 <= j < r.value :: !vs[j].Missing?
    decreases |vs|
  {
    if vs == [] then None
    else if vs[0].Missing? then Some(0)
    else
      assert forall j | 1 <= j < |vs| :: vs[j] == vs[1..][j - 1];
      match FirstMissing(vs[1..])
      case None => None
      case Some(k) => Some(k + 1)
  }

  /** The verdict on each object, in order. */
  function Verdicts<T, V(==)>(call: Lookup<T, V>, filters: seq<(string, V)>, xs: seq<T>): (vs: seq<Verdict>)
    ensures |vs| == |xs| && forall j | 0 <= j < |xs| :: vs[j] == Check(call, filters, xs[j])
  {
    seq(|xs|, j requires 0 <= j < |xs| => Check(call, filters, xs[j]))
  }

  /** apply_method_filter: the objects are checked first to last; the first one on which a
      lookup fails ends the filter with that method's name, and otherwise the result is the
      passing objects in their order. */
  function Apply<T(==), V(==)>(call: Lookup<T, V>, filters: seq<(string, V)>, xs: seq<T>): (r: Result<seq<T>, string>)
    ensures r.Err? <==> exists j | 0 <= j < |xs| :: Check(call, filters, xs[j]).Missing?
    ensures r.Err? ==>
              exists j | 0 <= j < |xs| ::
                && Check(call, filters, xs[j]) == Missing(r.error)
                && forall i | 0 <= i < j :: !Check(call, filters, xs[i]).Missing?
    ensures r.Ok? ==> SubSeq(r.value, xs)
    ensures r.Ok? ==> forall o | o in r.value :: o in xs && Check(call, filters, o) == Valid
    ensures r.Ok? ==> forall o | o in xs && Check(call, filters, o) == Valid :: o in r.value
    ensures r.Ok? ==>
              forall i | 0 <= i < |xs| ::
                multiset(r.value)[xs[i]] == if Check(call, filters, xs[i]) == Valid then multiset(xs)[xs[i]] else 0
  {
    var verdicts := Verdicts(call, filters, xs);
    KeepCounts(call, filters, xs);
    match FirstMissing(verdicts)
    case None => Ok(Keep(call, filters, xs))
    case Some(j) => Err(verdicts[j].name)
  }

  /** With no filters every object passes, and the filter gives the list back unchanged. */
  lemma NoFiltersKeepAll<T, V>(call: Lookup<T, V>, xs: seq<T>)
    ensures Apply(call, [], xs) == Ok(xs)
  {
    assert forall j | 0 <= j < |xs| :: Check(call, [], xs[j]) == Valid;
    KeepWithoutFilters(call, xs);
  }

  lemma {:induction false} KeepWithoutFilters<T, V>(call: Lookup<T, V>, xs: seq<T>)
    ensures Keep(call, [], xs) == xs
    decreases |xs|
  {
    if xs != [] {
      KeepWithoutFilters(call, xs[1..]);
      assert Check(call, [], xs[0]) == Valid;
      assert xs == [xs[0]] + xs[1..];
    }
  }

  /** The example objects: a Foo answers is_foo with True and is_bar with False, a Bar the
      other way round; neither has any other method. */
  datatype Example = Foo | Bar

  function ExampleCall(o: Example, name: string): Option<bool> {
    if name == "is_foo" then Some(o == Foo)
    else if name == "is_bar" then Some(o == Bar)
    else None
  }

  /** The documented example over [Foo, Foo, Bar]: asking for is_foo keeps both Foos. */
  lemma ExampleIsFoo()
    ensures Apply(ExampleCall, [("is_foo", true)], [Foo, Foo, Bar]) == Ok([Foo, Foo])
  {
    ExampleAnswers();
    CheckCons(ExampleCall, [("is_foo", true)], Foo);
    CheckCons(ExampleCall, [("is_foo", true)], Bar);
    assert [("is_foo", true)][1..] == [];
    assert [Foo, Foo] + [] == [Foo, Foo];
    OverExample([("is_foo", true)], Valid, Invalid);
  }

  /** Asking for is_bar to be False keeps both Foos. */
  lemma ExampleNotBar()
    ensures Apply(ExampleCall, [("is_bar", false)], [Foo, Foo, Bar]) == Ok([Foo, Foo])
  {
    ExampleAnswers();
    CheckCons(ExampleCall, [("is_bar", false)], Foo);
    CheckCons(ExampleCall, [("is_bar", false)], Bar);
    assert [("is_bar", false)][1..] == [];
    assert [Foo, Foo] + [] == [Foo, Foo];
    OverExample([("is_bar", false)], Valid, Invalid);
  }

  /** Asking for is_bar keeps the Bar. */
  lemma ExampleIsBar()
    ensures Apply(ExampleCall, [("is_bar", true)], [Foo, Foo, Bar]) == Ok([Bar])
  {
    ExampleAnswers();
    CheckCons(ExampleCall, [("is_bar", true)], Foo);
    CheckCons(ExampleCall, [("is_bar", true)], Bar);
    assert [("is_bar", true)][1..] == [];
    assert [] + [Bar] == [Bar];
    OverExample([("is_bar", true)], Invalid, Valid);
  }

  /** Asking for both is_foo and is_bar, which no object answers with True together, keeps
      nothing. */
  lemma ExampleBoth()
    ensures Apply(ExampleCall, [("is_foo", true), ("is_bar", true)], [Foo, Foo, Bar]) == Ok([])
  {
    ExampleAnswers();
    CheckCons(ExampleCall, [("is_bar", true)], Foo);
    CheckCons(ExampleCall, [("is_foo", true), ("is_bar", true)], Foo);
    CheckCons(ExampleCall, [("is_foo", true), ("is_bar", true)], Bar);
    OverExample([("is_foo", true), ("is_bar", true)], Invalid, Invalid);
  }

  /** What the example objects answer. */
  lemma ExampleAnswers()
    ensures ExampleCall(Foo, "is_foo") == Some(true) && ExampleCall(Foo, "is_bar") == Some(false)
    ensures ExampleCall(Bar, "is_foo") == Some(false) && ExampleCall(Bar, "is_bar") == Some(true)
    ensures ExampleCall(Foo, "is_baz") == None
  {
    assert "is_foo"[3] != "is_bar"[3];
    assert "is_baz"[5] != "is_foo"[5] && "is_baz"[5] != "is_bar"[5];
  }

  /** The filter over [Foo, Foo, Bar], given the verdicts on a Foo and on a Bar. */
  lemma OverExample(filters: seq<(string, bool)>, onFoo: Verdict, onBar: Verdict)
    requires Check(ExampleCall, filters, Foo) == onFoo && !onFoo.Missing?
    requires Check(ExampleCall, filters, Bar) == onBar && !onBar.Missing?
    ensures Apply(ExampleCall, filters, [Foo, Foo, Bar]) ==
              Ok((if onFoo == Valid then [Foo, Foo] else []) + (if onBar == Valid then [Bar] else []))
  {
    var bars := if onBar == Valid then [Bar] else [];
    var fooBars := if onFoo == Valid then [Foo] + bars else bars;
    OverFooBar(filters, onFoo, onBar);
    ApplyCons(ExampleCall, filters, Foo, [Foo, Bar]);
    assert [Foo] + [Foo, Bar] == [Foo, Foo, Bar];
    ExampleShape(onFoo, bars);
  }

  /** The filter over [Foo, Bar]. */
  lemma OverFooBar(filters: seq<(string, bool)>, onFoo: Verdict, onBar: Verdict)
    requires Check(ExampleCall, filters, Foo) == onFoo && !onFoo.Missing?
    requires Check(ExampleCall, filters, Bar) == onBar && !onBar.Missing?
    ensures var bars := if onBar == Valid then [Bar] else [];
            Apply(ExampleCall, filters, [Foo, Bar]) == Ok(if onFoo == Valid then [Foo] + bars else bars)
  {
    OverBar(filters, onBar);
    ApplyCons(ExampleCall, filters, Foo, [Bar]);
    assert [Foo] + [Bar] == [Foo, Bar];
  }

  /** The filter over [Bar]. */
  lemma OverBar(filters: seq<(string, bool)>, onBar: Verdict)
    requires Check(ExampleCall, filters, Bar) == onBar && !onBar.Missing?
    ensures Apply(ExampleCall, filters, [Bar]) == Ok(if onBar == Valid then [Bar] else [])
  {
    ApplyNil(ExampleCall, filters);
    ApplyCons(ExampleCall, filters, Bar, []);
    assert [Bar] + [] == [Bar];
  }

  lemma ExampleShape(onFoo: Verdict, bars: seq<Example>)
    ensures (if onFoo == Valid then [Foo] + ([Foo] + bars) else bars) ==
              (if onFoo == Valid then [Foo, Foo] else []) + bars
  {
    if onFoo == Valid {
      assert [Foo] + ([Foo] + bars) == [Foo, Foo] + bars;
    } else {
      assert [] + bars == bars;
    }
  }

  /** Checking an object against a non-empty list of filters: a missing method ends the check,
      a mismatch rejects the object, and a match goes on to the rest. */
  lemma CheckCons<T, V>(call: Lookup<T, V>, filters: seq<(string, V)>, o: T)
    requires filters != []
    ensures Check(call, filters, o) ==
              match call(o, filters[0].0)
              case None => Missing(filters[0].0)
              case Some(v) => if v != filters[0].1 then Invalid else Check(call, filters[1..], o)
  {
  }

  /** Filtering no objects keeps nothing and fails on nothing. */
  lemma ApplyNil<T, V>(call: Lookup<T, V>, filters: seq<(string, V)>)
    ensures Apply(call, filters, []) == Ok([])
  {
  }

  /** Filtering a list that starts with `x`: checking `x` comes first, and a lookup failure on
      it ends the filter before any later object is looked at. */
  lemma ApplyCons<T, V>(call: Lookup<T, V>, filters: seq<(string, V)>, x: T, xs: seq<T>)
    ensures var v := Check(call, filters, x);
            Apply(call, filters, [x] + xs) ==
              if v.Missing? then Err(v.name)
              else if Apply(call, filters, xs).Err? then Apply(call, filters, xs)
              else Ok(if v == Valid then [x] + Apply(call, filters, xs).value else Apply(call, filters, xs).value)
  {
    var vs := Verdicts(call, filters, [x] + xs);
    var ws := Verdicts(call, filters, xs);
    VerdictsCons(call, filters, x, xs);
    FirstMissingCons(Check(call, filters, x), ws);
    if !vs[0].Missing? {
      KeepCons(call, filters, x, xs);
    }
  }

  lemma FirstMissingCons(v: Verdict, ws: seq<Verdict>)
    ensures FirstMissing([v] + ws) ==
              if v.Missing? then Some(0)
              else if FirstMissing(ws).None? then None
              else Some(FirstMissing(ws).value + 1)
  {
    assert ([v] + ws)[1..] == ws;
  }

  lemma VerdictsCons<T, V>(call: Lookup<T, V>, filters: seq<(string, V)>, x: T, xs: seq<T>)
    ensures Verdicts(call, filters, [x] + xs) == [Check(call, filters, x)] + Verdicts(call, filters, xs)
  {
    var vs := Verdicts(call, filters, [x] + xs);
    assert forall j | 1 <= j < |vs| :: ([x] + xs)[j] == xs[j - 1];
  }

  lemma KeepCons<T, V>(call: Lookup<T, V>, filters: seq<(string, V)>, x: T, xs: seq<T>)
    ensures Keep(call, filters, [x] + xs) ==
              if Check(call, filters, x) == Valid then [x] + Keep(call, filters, xs) else Keep(call, filters, xs)
  {
    assert ([x] + xs)[1..] == xs;
  }

  /** A name no object answers makes the filter fail on a non-empty list, whatever comes after
      it, unless a filter before it already rejected the first object. */
  lemma MissingMethodRaises()
    ensures Apply(ExampleCall, [("is_baz", true)], [Foo]) == Err("is_baz")
    ensures Apply(ExampleCall, [("is_bar", true), ("is_baz", true)], [Foo]) == Ok([])
  {
    ExampleAnswers();
    var isBaz, isBar := ("is_baz", true), ("is_bar", true);
    CheckCons(ExampleCall, [isBaz], Foo);
    CheckCons(ExampleCall, [isBar, isBaz], Foo);
    ApplyNil(ExampleCall, [isBaz]);
    ApplyNil(ExampleCall, [isBar, isBaz]);
    ApplyCons(ExampleCall, [isBaz], Foo, []);
    ApplyCons(ExampleCall, [isBar, isBaz], Foo, []);
    assert [Foo] + [] == [Foo];
  }
}
