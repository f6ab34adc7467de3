/**
 * What `Spread<T>` promises its callers, proved about the model: the fold law,
 * null sources as no-ops, last write wins, read-only and type-incompatible
 * properties left alone, and zero sources giving the default object.
 *
 * The "last write" of a property is defined here independently of the fold:
 * as a search from the END of the property list and of the source list.
 */
module SpreadLaws {
  import opened Wrappers
  import opened Reflection
  import opened PropertyCache
  import opened Spreader

  /** The last present element among the first `n` of `xs`, searching from position `n - 1` down. */
  function LastSomeBefore<T>(xs: seq<Option<T>>, n: nat): (r: Option<T>)
    requires n <= |xs|
    ensures r.None? <==> forall i :: 0 <= i < n ==> xs[i].None?
    ensures r.Some? ==> exists i :: 0 <= i < n && xs[i] == r && forall j :: i < j < n ==> xs[j].None?
  {
    if n == 0 then None
    else if xs[n - 1].Some? then xs[n - 1]
    else LastSomeBefore(xs, n - 1)
  }

  /** The last present element of `xs`. */
  function LastSome<T>(xs: seq<Option<T>>): Option<T> {
    LastSomeBefore(xs, |xs|)
  }

  /** The value an attempt writes to the target property named `n`, if it writes that one. */
  function WrittenTo(a: Attempt, n: string): Option<Value> {
    if a.Assign? && a.name == n then Some(a.value) else None
  }

  /** For each property of one source, in order, what it writes to `n`. */
  function PropertyWrites(host: Host, targetProps: seq<PropDesc>, sourceProps: seq<PropDesc>, src: Source, n: string): (ws: seq<Option<Value>>)
    ensures |ws| == |sourceProps|
    ensures forall i :: 0 <= i < |sourceProps| ==> ws[i] == WrittenTo(TryCopy(host, targetProps, src, sourceProps[i]), n)
  {
    seq(|sourceProps|, i requires 0 <= i < |sourceProps| => WrittenTo(TryCopy(host, targetProps, src, sourceProps[i]), n))
  }

  /** A present element followed only by absent ones is the last present one. */
  lemma LastSomeAt<T>(xs: seq<Option<T>>, i: int)
    requires 0 <= i < |xs| && xs[i].Some?
    requires forall j :: i < j < |xs| ==> xs[j].None?
    ensures LastSome(xs) == xs[i]
  {
    var k :| 0 <= k < |xs| && xs[k] == LastSome(xs) && forall j :: k < j < |xs| ==> xs[j].None?;
  }

  /** The value a (possibly null) source leaves in the target property `n`, if it writes it. */
  function SourceAssign(host: Host, targetProps: seq<PropDesc>, source: Option<Source>, n: string): Option<Value> {
    match source
    case None => None
    case Some(src) => LastSome(PropertyWrites(host, targetProps, host.introspect(src.runtimeType), src, n))
  }

  /** For each source, in order, what it leaves in `n`. */
  function SourceWrites(host: Host, targetProps: seq<PropDesc>, sources: seq<Option<Source>>, n: string): (ws: seq<Option<Value>>)
    ensures |ws| == |sources|
    ensures forall i :: 0 <= i < |sources| ==> ws[i] == SourceAssign(host, targetProps, sources[i], n)
  {
    seq(|sources|, i requires 0 <= i < |sources| => SourceAssign(host, targetProps, sources[i], n))
  }

  /** The value the last source that writes `n` leaves in it, if any source does. */
  function LastWrite(host: Host, targetProps: seq<PropDesc>, sources: seq<Option<Source>>, n: string): Option<Value> {
    LastSome(SourceWrites(host, targetProps, sources, n))
  }

  /** The search only looks at the first `n` elements. */
  lemma {:induction false} LastSomeBeforePrefix<T>(xs: seq<Option<T>>, ys: seq<Option<T>>, n: nat)
    requires n <= |xs| && n <= |ys|
    requires forall i :: 0 <= i < n ==> xs[i] == ys[i]
    ensures LastSomeBefore(xs, n) == LastSomeBefore(ys, n)
  {
    if n > 0 {
      LastSomeBeforePrefix(xs, ys, n - 1);
    }
  }

  /** One more element either is the new last present one or leaves the answer as it was. */
  lemma LastSomeSnoc<T>(xs: seq<Option<T>>, x: Option<T>)
    ensures LastSome(xs + [x]) == if x.Some? then x else LastSome(xs)
  {
    LastSomeBeforePrefix(xs + [x], xs, |xs|);
  }

  /** `FindProperty` answers with the first same-named property and no other. */
  lemma FindPropertyFirst(props: seq<PropDesc>, name: string, i: int)
    requires FirstNamed(props, name, i)
    ensures FindProperty(props, name) == Some(props[i])
  {
    var r := FindProperty(props, name);
    assert r.Some?;
    var k :| FirstNamed(props, name, k) && props[k] == r.value;
  }

  /** Only a readable source property with exactly the target property's name, copyable to it, writes it. */
  lemma WrittenToNamed(host: Host, targetProps: seq<PropDesc>, src: Source, sp: PropDesc, n: string)
    requires WrittenTo(TryCopy(host, targetProps, src, sp), n).Some?
    ensures sp.name == n && sp.canRead
    ensures FindProperty(targetProps, n).Some? && FindProperty(targetProps, n).value.canWrite
    ensures host.accepts(FindProperty(targetProps, n).value.declType, sp.declType)
  {
  }

  /** The inner fold, taken one property further. */
  lemma {:induction false} ApplySourceSnoc(host: Host, targetProps: seq<PropDesc>, sourceProps: seq<PropDesc>, sp: PropDesc, src: Source, m: Merged)
    ensures ApplySource(host, targetProps, sourceProps + [sp], src, m)
            == Record(ApplySource(host, targetProps, sourceProps, src, m), TryCopy(host, targetProps, src, sp))
    decreases |sourceProps|
  {
    if |sourceProps| == 0 {
      assert ([] + [sp])[1..] == [];
    } else {
      assert (sourceProps + [sp])[1..] == sourceProps[1..] + [sp];
      ApplySourceSnoc(host, targetProps, sourceProps[1..], sp, src, Record(m, TryCopy(host, targetProps, src, sourceProps[0])));
    }
  }

  /** Within one source, the last property written to `n` decides its value. */
  lemma {:induction false} ApplySourceValue(host: Host, targetProps: seq<PropDesc>, sourceProps: seq<PropDesc>, src: Source, m: Merged, n: string)
    requires Names(targetProps) <= m.target.Keys
    requires n in m.target
    ensures ApplySource(host, targetProps, sourceProps, src, m).target[n]
            == LastSome(PropertyWrites(host, targetProps, sourceProps, src, n)).GetOr(m.target[n])
    decreases |sourceProps|
  {
    if |sourceProps| != 0 {
      var last := |sourceProps| - 1;
      var init := sourceProps[..last];
      assert sourceProps == init + [sourceProps[last]];
      ApplySourceSnoc(host, targetProps, init, sourceProps[last], src, m);
      ApplySourceValue(host, targetProps, init, src, m, n);
      assert PropertyWrites(host, targetProps, sourceProps, src, n)
             == PropertyWrites(host, targetProps, init, src, n) + [WrittenTo(TryCopy(host, targetProps, src, sourceProps[last]), n)];
      LastSomeSnoc(PropertyWrites(host, targetProps, init, src, n), WrittenTo(TryCopy(host, targetProps, src, sourceProps[last]), n));
    }
  }

  /** A report on the diagnostic channel names a source property that passed every check and then failed. */
  lemma {:induction false} ApplySourceErrors(host: Host, targetProps: seq<PropDesc>, sourceProps: seq<PropDesc>, src: Source, m: Merged)
    ensures forall k :: |m.errors| <= k < |ApplySource(host, targetProps, sourceProps, src, m).errors| ==>
              exists i :: && 0 <= i < |sourceProps|
                          && TryCopy(host, targetProps, src, sourceProps[i]) == Fail(ApplySource(host, targetProps, sourceProps, src, m).errors[k])
    decreases |sourceProps|
  {
    if |sourceProps| != 0 {
      var a := TryCopy(host, targetProps, src, sourceProps[0]);
      var m1 := Record(m, a);
      var rest := sourceProps[1..];
      var r := ApplySource(host, targetProps, sourceProps, src, m);
      assert r == ApplySource(host, targetProps, rest, src, m1);
      ApplySourceErrors(host, targetProps, rest, src, m1);
      forall k | |m.errors| <= k < |r.errors|
        ensures exists i :: 0 <= i < |sourceProps| && TryCopy(host, targetProps, src, sourceProps[i]) == Fail(r.errors[k])
      {
        if k < |m1.errors| {
          assert r.errors[k] == m1.errors[k];
          assert TryCopy(host, targetProps, src, sourceProps[0]) == Fail(r.errors[k]);
        } else {
          var i :| 0 <= i < |rest| && TryCopy(host, targetProps, src, rest[i]) == Fail(r.errors[k]);
          assert TryCopy(host, targetProps, src, sourceProps[i + 1]) == Fail(r.errors[k]);
        }
      }
    } else {
      assert ApplySource(host, targetProps, sourceProps, src, m) == m;
    }
  }

  /** The names of the properties of one source whose copy fails, in enumeration order. */
  function FailedNames(host: Host, targetProps: seq<PropDesc>, sourceProps: seq<PropDesc>, src: Source): (ns: seq<string>)
    ensures |ns| <= |sourceProps|
    decreases |sourceProps|
  {
    if |sourceProps| == 0 then []
    else
      (if TryCopy(host, targetProps, src, sourceProps[0]).Fail? then [sourceProps[0].name] else [])
      + FailedNames(host, targetProps, sourceProps[1..], src)
  }

  /** The diagnostic channel gains exactly one report per failed property of the source, in order. */
  lemma {:induction false} ApplySourceReportsFailures(host: Host, targetProps: seq<PropDesc>, sourceProps: seq<PropDesc>, src: Source, m: Merged)
    ensures ApplySource(host, targetProps, sourceProps, src, m).errors == m.errors + FailedNames(host, targetProps, sourceProps, src)
    decreases |sourceProps|
  {
    if |sourceProps| == 0 {
      assert ApplySource(host, targetProps, sourceProps, src, m) == m;
    } else {
      var a := TryCopy(host, targetProps, src, sourceProps[0]);
      var m1 := Record(m, a);
      var rest := sourceProps[1..];
      var head := if a.Fail? then [sourceProps[0].name] else [];
      var tail := FailedNames(host, targetProps, rest, src);
      assert ApplySource(host, targetProps, sourceProps, src, m) == ApplySource(host, targetProps, rest, src, m1);
      assert FailedNames(host, targetProps, sourceProps, src) == head + tail;
      assert m1.errors == m.errors + head;
      ApplySourceReportsFailures(host, targetProps, rest, src, m1);
      AppendTwice(m.errors, head, tail, m1.errors, ApplySource(host, targetProps, rest, src, m1).errors);
    }
  }

  /** A source property with no same-named target property is never reported. */
  lemma {:induction false} UnmatchedNeverReported(host: Host, targetProps: seq<PropDesc>, sourceProps: seq<PropDesc>, src: Source, n: string)
    requires n !in Names(targetProps)
    ensures n !in FailedNames(host, targetProps, sourceProps, src)
    decreases |sourceProps|
  {
    if |sourceProps| != 0 {
      UnmatchedNeverReported(host, targetProps, sourceProps[1..], src, n);
    }
  }

  /** The reports one (possibly null) source adds. */
  function SourceFailedNames(host: Host, targetProps: seq<PropDesc>, source: Option<Source>): seq<string> {
    match source
    case None => []
    case Some(src) => FailedNames(host, targetProps, host.introspect(src.runtimeType), src)
  }

  /** One outer iteration reports exactly that source's failed properties. */
  lemma StepReports(host: Host, targetProps: seq<PropDesc>, m: Merged, source: Option<Source>)
    ensures Step(host, targetProps, m, source).errors == m.errors + SourceFailedNames(host, targetProps, source)
  {
    if source.Some? {
      var src := source.value;
      ApplySourceReportsFailures(host, targetProps, host.introspect(src.runtimeType), src, m);
    }
  }

  /** The reports of all the sources, each non-null source's failed properties in turn. */
  function SourcesFailedNames(host: Host, targetProps: seq<PropDesc>, sources: seq<Option<Source>>): seq<string>
    decreases |sources|
  {
    if |sources| == 0 then []
    else SourcesFailedNames(host, targetProps, sources[..|sources| - 1]) + SourceFailedNames(host, targetProps, sources[|sources| - 1])
  }

  /** Across the sources, the diagnostic channel gains exactly the failed properties, source by source. */
  lemma {:induction false} MergeReportsFailures(host: Host, targetProps: seq<PropDesc>, m: Merged, sources: seq<Option<Source>>)
    ensures Merge(host, targetProps, m, sources).errors == m.errors + SourcesFailedNames(host, targetProps, sources)
    decreases |sources|
  {
    if |sources| != 0 {
      var last := |sources| - 1;
      var init := sources[..last];
      var before := Merge(host, targetProps, m, init);
      var after := Merge(host, targetProps, m, sources);
      var earlier := SourcesFailedNames(host, targetProps, init);
      var now := SourceFailedNames(host, targetProps, sources[last]);
      assert after == Step(host, targetProps, before, sources[last]) by {
        assert sources == init + [sources[last]];
        MergeSnoc(host, targetProps, m, init, sources[last]);
      }
      assert before.errors == m.errors + earlier by {
        MergeReportsFailures(host, targetProps, m, init);
      }
      assert after.errors == before.errors + now by {
        StepReports(host, targetProps, before, sources[last]);
      }
      assert SourcesFailedNames(host, targetProps, sources) == earlier + now;
      AppendTwice(m.errors, earlier, now, before.errors, after.errors);
    }
  }

  /** Appending twice is appending the concatenation. */
  lemma AppendTwice(e: seq<string>, xs: seq<string>, ys: seq<string>, e1: seq<string>, e2: seq<string>)
    requires e1 == e + xs && e2 == e1 + ys
    ensures e2 == e + (xs + ys)
  {
  }

  /** Merging a concatenation merges the first part, then the second from there. */
  lemma {:induction false} MergeAppend(host: Host, targetProps: seq<PropDesc>, m: Merged, xs: seq<Option<Source>>, ys: seq<Option<Source>>)
    ensures Merge(host, targetProps, m, xs + ys) == Merge(host, targetProps, Merge(host, targetProps, m, xs), ys)
    decreases |xs|
  {
    if |xs| == 0 {
      assert xs + ys == ys;
    } else {
      assert (xs + ys)[1..] == xs[1..] + ys;
      MergeAppend(host, targetProps, Step(host, targetProps, m, xs[0]), xs[1..], ys);
    }
  }

  /** The merge is a left fold of `Step`: one more source is one more step on the result so far. */
  lemma MergeSnoc(host: Host, targetProps: seq<PropDesc>, m: Merged, xs: seq<Option<Source>>, s: Option<Source>)
    ensures Merge(host, targetProps, m, xs + [s]) == Step(host, targetProps, Merge(host, targetProps, m, xs), s)
  {
    MergeAppend(host, targetProps, m, xs, [s]);
    assert [s][1..] == [];
  }

  /** Across sources, the last source that writes `n` decides its value; otherwise it keeps its value. */
  lemma {:induction false} MergeValue(host: Host, targetProps: seq<PropDesc>, m: Merged, sources: seq<Option<Source>>, n: string)
    requires Names(targetProps) <= m.target.Keys
    requires n in m.target
    ensures Merge(host, targetProps, m, sources).target[n] == LastWrite(host, targetProps, sources, n).GetOr(m.target[n])
    decreases |sources|
  {
    if |sources| != 0 {
      var last := |sources| - 1;
      var init := sources[..last];
      assert sources == init + [sources[last]];
      MergeSnoc(host, targetProps, m, init, sources[last]);
      MergeValue(host, targetProps, m, init, n);
      var before := Merge(host, targetProps, m, init);
      if sources[last].Some? {
        var src := sources[last].value;
        ApplySourceValue(host, targetProps, host.introspect(src.runtimeType), src, before, n);
      }
      assert SourceWrites(host, targetProps, sources, n)
             == SourceWrites(host, targetProps, init, n) + [SourceAssign(host, targetProps, sources[last], n)];
      LastSomeSnoc(SourceWrites(host, targetProps, init, n), SourceAssign(host, targetProps, sources[last], n));
    }
  }

  /** `Spread` is a left fold with no state carried across sources but the target so far. */
  lemma SpreadFoldStep(host: Host, cache: Cache, t: TypeId, sources: seq<Option<Source>>, s: Option<Source>)
    requires Sound(cache, host.introspect)
    ensures Spread(host, cache, t, sources + [s]).0
            == Step(host, host.introspect(t), Spread(host, cache, t, sources).0, s)
  {
    var targetProps := host.introspect(t);
    MergeSnoc(host, targetProps, Merged(NewInstance(host, targetProps), []), sources, s);
  }

  /**
   * Every caught failure is reported and nothing else is: the reports of
   * `Spread` are the failed properties of the non-null sources, in order.
   */
  lemma {:induction false} SpreadReportsFailures(host: Host, cache: Cache, t: TypeId, sources: seq<Option<Source>>)
    requires Sound(cache, host.introspect)
    ensures Spread(host, cache, t, sources).0.errors == SourcesFailedNames(host, host.introspect(t), sources)
  {
    var targetProps := host.introspect(t);
    MergeReportsFailures(host, targetProps, Merged(NewInstance(host, targetProps), []), sources);
  }

  /** A null source anywhere in the list changes nothing. */
  lemma NullSourceIsNoOp(host: Host, cache: Cache, t: TypeId, xs: seq<Option<Source>>, ys: seq<Option<Source>>)
    requires Sound(cache, host.introspect)
    ensures Spread(host, cache, t, xs + [None] + ys).0 == Spread(host, cache, t, xs + ys).0
  {
    var targetProps := host.introspect(t);
    var m := Merged(NewInstance(host, targetProps), []);
    MergeAppend(host, targetProps, m, xs + [None], ys);
    MergeSnoc(host, targetProps, m, xs, None);
    MergeAppend(host, targetProps, m, xs, ys);
  }

  /** With no sources the result is `new T()`: every property holds its type's default, and nothing is reported. */
  lemma NoSourcesIsDefault(host: Host, cache: Cache, t: TypeId)
    requires Sound(cache, host.introspect)
    ensures var r := Spread(host, cache, t, []).0;
            var targetProps := host.introspect(t);
            && r.errors == []
            && r.target.Keys == Names(targetProps)
            && forall n :: n in r.target ==>
                 FindProperty(targetProps, n).Some? && r.target[n] == host.zero(FindProperty(targetProps, n).value.declType)
  {
  }

  /**
   * Last write wins: each target property ends with the value of the last
   * source that writes it, or its default when no source does.
   */
  lemma {:induction false} LastWriteWins(host: Host, cache: Cache, t: TypeId, sources: seq<Option<Source>>, n: string)
    requires Sound(cache, host.introspect)
    requires n in Names(host.introspect(t))
    ensures FindProperty(host.introspect(t), n).Some?
    ensures Spread(host, cache, t, sources).0.target[n]
            == LastWrite(host, host.introspect(t), sources, n).GetOr(host.zero(FindProperty(host.introspect(t), n).value.declType))
  {
    var targetProps := host.introspect(t);
    MergeValue(host, targetProps, Merged(NewInstance(host, targetProps), []), sources, n);
  }

  /**
   * The value source `i` leaves in `n` is final when no later source writes
   * `n`, whatever that value is (null included).
   */
  lemma {:induction false} LaterSourceOverrides(host: Host, cache: Cache, t: TypeId, sources: seq<Option<Source>>, n: string, i: int, v: Value)
    requires Sound(cache, host.introspect)
    requires 0 <= i < |sources|
    requires SourceAssign(host, host.introspect(t), sources[i], n) == Some(v)
    requires forall j :: i < j < |sources| ==> SourceAssign(host, host.introspect(t), sources[j], n).None?
    ensures Spread(host, cache, t, sources).0.target[n] == v
  {
    var targetProps := host.introspect(t);
    var src := sources[i].value;
    var sourceProps := host.introspect(src.runtimeType);
    var ps := PropertyWrites(host, targetProps, sourceProps, src, n);
    assert LastSome(ps) == Some(v);
    var k :| 0 <= k < |ps| && ps[k] == Some(v) && forall j :: k < j < |ps| ==> ps[j].None?;
    WrittenToNamed(host, targetProps, src, sourceProps[k], n);
    LastWriteWins(host, cache, t, sources, n);
    LastSomeAt(SourceWrites(host, targetProps, sources, n), i);
  }

  /** A target property that cannot be written keeps its default, whatever the sources hold. */
  lemma {:induction false} ReadOnlyNeverWritten(host: Host, cache: Cache, t: TypeId, sources: seq<Option<Source>>, n: string)
    requires Sound(cache, host.introspect)
    requires FindProperty(host.introspect(t), n).Some? && !FindProperty(host.introspect(t), n).value.canWrite
    ensures Spread(host, cache, t, sources).0.target[n] == host.zero(FindProperty(host.introspect(t), n).value.declType)
  {
    var targetProps := host.introspect(t);
    var ws := SourceWrites(host, targetProps, sources, n);
    forall i | 0 <= i < |sources| ensures ws[i].None? {
      if sources[i].Some? {
        var src := sources[i].value;
        var sourceProps := host.introspect(src.runtimeType);
        var ps := PropertyWrites(host, targetProps, sourceProps, src, n);
        forall k | 0 <= k < |sourceProps| ensures ps[k].None? {
          if ps[k].Some? {
            WrittenToNamed(host, targetProps, src, sourceProps[k], n);
          }
        }
      }
    }
    LastWriteWins(host, cache, t, sources, n);
  }

  /** No property of `src` named `n` passes the static checks: `n` is neither written nor reported. */
  lemma NotCopiedKeepsValue(host: Host, targetProps: seq<PropDesc>, m: Merged, src: Source, n: string)
    requires Names(targetProps) <= m.target.Keys
    requires n in m.target
    requires forall sp :: sp in host.introspect(src.runtimeType) && sp.name == n ==> !Copyable(host, targetProps, sp)
    ensures var r := Step(host, targetProps, m, Some(src));
            && r.target[n] == m.target[n]
            && forall k :: |m.errors| <= k < |r.errors| ==> r.errors[k] != n
  {
    var sourceProps := host.introspect(src.runtimeType);
    var ps := PropertyWrites(host, targetProps, sourceProps, src, n);
    forall k | 0 <= k < |sourceProps| ensures ps[k].None? {
      if ps[k].Some? {
        WrittenToNamed(host, targetProps, src, sourceProps[k], n);
      }
    }
    ApplySourceValue(host, targetProps, sourceProps, src, m, n);
    ApplySourceErrors(host, targetProps, sourceProps, src, m);
    var r := Step(host, targetProps, m, Some(src));
    forall k | |m.errors| <= k < |r.errors| ensures r.errors[k] != n {
      var i :| 0 <= i < |sourceProps| && TryCopy(host, targetProps, src, sourceProps[i]) == Fail(r.errors[k]);
      assert sourceProps[i] in sourceProps;
    }
  }

  /**
   * A source whose readable properties named `n` all have declared types the
   * target property does not accept leaves that property as earlier sources
   * left it, and reports nothing about it.
   */
  lemma {:induction false} IncompatibleTypeSkipped(host: Host, targetProps: seq<PropDesc>, m: Merged, src: Source, n: string)
    requires Names(targetProps) <= m.target.Keys
    requires FindProperty(targetProps, n).Some?
    requires forall sp :: sp in host.introspect(src.runtimeType) && sp.name == n && sp.canRead ==>
               !host.accepts(FindProperty(targetProps, n).value.declType, sp.declType)
    ensures n in m.target
    ensures var r := Step(host, targetProps, m, Some(src));
            && r.target[n] == m.target[n]
            && forall k :: |m.errors| <= k < |r.errors| ==> r.errors[k] != n
  {
    NotCopiedKeepsValue(host, targetProps, m, src, n);
  }

  /**
   * A source with no readable property named `n` leaves the target property
   * `n` as it was and reports nothing about it: names are matched exactly.
   */
  lemma UnmatchedNameSkipped(host: Host, targetProps: seq<PropDesc>, m: Merged, src: Source, n: string)
    requires Names(targetProps) <= m.target.Keys
    requires n in m.target
    requires forall sp :: sp in host.introspect(src.runtimeType) && sp.canRead ==> sp.name != n
    ensures var r := Step(host, targetProps, m, Some(src));
            && r.target[n] == m.target[n]
            && forall k :: |m.errors| <= k < |r.errors| ==> r.errors[k] != n
  {
    NotCopiedKeepsValue(host, targetProps, m, src, n);
  }
}
