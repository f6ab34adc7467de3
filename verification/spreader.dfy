/**
 * `ObjectExtensions.Spread<T>`: construct a default `T`, then copy, source by
 * source and property by property, every readable source property onto the
 * target property of exactly the same name, when that property is writable and
 * its declared type accepts the source property's declared type.
 */
module Spreader {
  import opened Wrappers
  import opened Reflection
  import opened PropertyCache

  /** The target under construction, and the property names reported on the diagnostic channel. */
  datatype Merged = Merged(target: Obj, errors: seq<string>)

  /** What the inner loop body does with one source property. */
  datatype Attempt = Skip | Fail(name: string) | Assign(name: string, value: Value)

  /** Index `i` holds the first property of `props` named exactly `name`. */
  ghost predicate FirstNamed(props: seq<PropDesc>, name: string, i: int) {
    && 0 <= i < |props|
    && props[i].name == name
    && forall j :: 0 <= j < i ==> props[j].name != name
  }

  /** The names of a non-empty list: the head's name and the names of the rest. */
  lemma NamesCons(props: seq<PropDesc>)
    requires |props| > 0
    ensures Names(props) == {props[0].name} + Names(props[1..])
  {
    forall n | n in Names(props) ensures n in {props[0].name} + Names(props[1..]) {
      var i :| 0 <= i < |props| && props[i].name == n;
      if i > 0 { assert props[1..][i - 1].name == n; }
    }
  }

  /** `FindProperty`: the first property whose name equals `name` (case-sensitive), if any. */
  function FindProperty(props: seq<PropDesc>, name: string): (r: Option<PropDesc>)
    ensures r.None? <==> forall i :: 0 <= i < |props| ==> props[i].name != name
    ensures r.None? <==> name !in Names(props)
    ensures r.Some? ==> exists i :: FirstNamed(props, name, i) && props[i] == r.value
  {
    if |props| == 0 then None
    else if props[0].name == name then Some(props[0])
    else
      var r := FindProperty(props[1..], name);
      assert r.Some? ==> exists i :: FirstNamed(props, name, i) && props[i] == r.value by {
        if r.Some? {
          var k :| FirstNamed(props[1..], name, k) && props[1..][k] == r.value;
          assert FirstNamed(props, name, k + 1);
        }
      }
      NamesCons(props);
      r
  }

  /**
   * `new T()`: an object holding, for each property name of `props`, the
   * default value of the declared type of the first property with that name.
   */
  function NewInstance(host: Host, props: seq<PropDesc>): (o: Obj)
    ensures o.Keys == Names(props)
    ensures forall n :: n in o ==> FindProperty(props, n).Some? && o[n] == host.zero(FindProperty(props, n).value.declType)
  {
    if |props| == 0 then map[]
    else
      var o := NewInstance(host, props[1..])[props[0].name := host.zero(props[0].declType)];
      NamesCons(props);
      o
  }

  /** The static checks a source property passes before it is copied. */
  function Copyable(host: Host, targetProps: seq<PropDesc>, sp: PropDesc): (b: bool)
    // stated on the first declaration of the name, without the linear search
    ensures b <==> && sp.canRead
                   && exists i :: && FirstNamed(targetProps, sp.name, i)
                                  && targetProps[i].canWrite
                                  && host.accepts(targetProps[i].declType, sp.declType)
  {
    var r := FindProperty(targetProps, sp.name);
    assert r.Some? ==> exists i :: FirstNamed(targetProps, sp.name, i) && targetProps[i] == r.value;
    assert forall i :: FirstNamed(targetProps, sp.name, i) ==> r == Some(targetProps[i]) by {
      forall i | FirstNamed(targetProps, sp.name, i) ensures r == Some(targetProps[i]) {
        assert r.Some?;
        var k :| FirstNamed(targetProps, sp.name, k) && targetProps[k] == r.value;
        assert !(k < i) && !(i < k);
      }
    }
    && sp.canRead
    && FindProperty(targetProps, sp.name).Some?
    && FindProperty(targetProps, sp.name).value.canWrite
    && host.accepts(FindProperty(targetProps, sp.name).value.declType, sp.declType)
  }

  /**
   * The inner loop body for source property `sp` of `src`: skip it, or read it
   * and write it to the same-named target property; a getter or setter that
   * throws is caught and reported under the property's name.
   */
  function TryCopy(host: Host, targetProps: seq<PropDesc>, src: Source, sp: PropDesc): (a: Attempt)
    ensures a.Skip? <==> !Copyable(host, targetProps, sp)
    // a property that passes the checks, whose getter answers and whose setter does not throw, is copied
    ensures Copyable(host, targetProps, sp) && GetValue(src, sp).Some?
            && !host.setFails(FindProperty(targetProps, sp.name).value, GetValue(src, sp).value)
            ==> a == Assign(sp.name, GetValue(src, sp).value)
    // a failure is a getter or a setter that threw, reported under the source property's name
    ensures a.Fail? ==> && a.name == sp.name
                        && Copyable(host, targetProps, sp)
                        && (|| GetValue(src, sp).None?
                            || host.setFails(FindProperty(targetProps, sp.name).value, GetValue(src, sp).value))
    ensures a.Assign? ==> a.name == sp.name && GetValue(src, sp) == Some(a.value)
    // a setter that throws never writes
    ensures a.Assign? ==> !host.setFails(FindProperty(targetProps, sp.name).value, a.value)
  {
    if !sp.canRead then Skip
    else match FindProperty(targetProps, sp.name)
      case None => Skip
      case Some(tp) =>
        if !(tp.canWrite && host.accepts(tp.declType, sp.declType)) then Skip
        else match GetValue(src, sp)
          case None => Fail(sp.name)
          case Some(v) => if host.setFails(tp, v) then Fail(sp.name) else Assign(tp.name, v)
  }

  /** The effect of one attempt on the target and on the diagnostic channel. */
  function Record(m: Merged, a: Attempt): (r: Merged)
    // an assignment stores its value under its name and touches no other property
    ensures a.Assign? ==> a.name in r.target && r.target[a.name] == a.value
    ensures forall k :: k in m.target && !(a.Assign? && a.name == k) ==> k in r.target && r.target[k] == m.target[k]
    ensures r.target.Keys == m.target.Keys + (if a.Assign? then {a.name} else {})
    // exactly the failures are reported, one line each
    ensures r.errors == m.errors + (if a.Fail? then [a.name] else [])
  {
    match a
    case Skip => m
    case Fail(n) => m.(errors := m.errors + [n])
    case Assign(n, v) => m.(target := m.target[n := v])
  }

  /** The inner `foreach`: every property of one source, in enumeration order. */
  function ApplySource(host: Host, targetProps: seq<PropDesc>, sourceProps: seq<PropDesc>, src: Source, m: Merged): (r: Merged)
    // the target keeps its shape: no property is added or removed
    ensures Names(targetProps) <= m.target.Keys ==> r.target.Keys == m.target.Keys
    // the diagnostic channel is only appended to
    ensures |m.errors| <= |r.errors| && r.errors[..|m.errors|] == m.errors
    decreases |sourceProps|
  {
    if |sourceProps| == 0 then m
    else
      var a := TryCopy(host, targetProps, src, sourceProps[0]);
      AttemptKeepsShape(host, targetProps, src, sourceProps[0], m);
      var r := ApplySource(host, targetProps, sourceProps[1..], src, Record(m, a));
      PrefixTrans(m.errors, Record(m, a).errors, r.errors);
      r
  }

  /** A prefix of a prefix is a prefix. */
  lemma PrefixTrans(a: seq<string>, b: seq<string>, c: seq<string>)
    requires |a| <= |b| && b[..|a|] == a
    requires |b| <= |c| && c[..|b|] == b
    ensures |a| <= |c| && c[..|a|] == a
  {
    assert c[..|a|] == c[..|b|][..|a|];
  }

  /** One attempt writes only a declared target property, so a target holding every declared name keeps its keys. */
  lemma AttemptKeepsShape(host: Host, targetProps: seq<PropDesc>, src: Source, sp: PropDesc, m: Merged)
    ensures Names(targetProps) <= m.target.Keys ==> Record(m, TryCopy(host, targetProps, src, sp)).target.Keys == m.target.Keys
  {
    var a := TryCopy(host, targetProps, src, sp);
    assert a.Assign? ==> a.name in Names(targetProps);
  }

  /** One iteration of the outer `foreach`, with introspection in place of the cache. */
  function Step(host: Host, targetProps: seq<PropDesc>, m: Merged, source: Option<Source>): (r: Merged)
    // a null source is skipped
    ensures source.None? ==> r == m
    // the target keeps its shape, and the diagnostic channel is only appended to
    ensures Names(targetProps) <= m.target.Keys ==> r.target.Keys == m.target.Keys
    ensures |m.errors| <= |r.errors| && r.errors[..|m.errors|] == m.errors
  {
    match source
    case None => m
    case Some(src) => ApplySource(host, targetProps, host.introspect(src.runtimeType), src, m)
  }

  /** The outer `foreach` over the sources, with introspection in place of the cache. */
  function Merge(host: Host, targetProps: seq<PropDesc>, m: Merged, sources: seq<Option<Source>>): (r: Merged)
    ensures Names(targetProps) <= m.target.Keys ==> r.target.Keys == m.target.Keys
    ensures |m.errors| <= |r.errors| && r.errors[..|m.errors|] == m.errors
    decreases |sources|
  {
    if |sources| == 0 then m
    else Merge(host, targetProps, Step(host, targetProps, m, sources[0]), sources[1..])
  }

  /** The runtime types of the non-null sources. */
  function RuntimeTypes(sources: seq<Option<Source>>): (ts: set<TypeId>)
    ensures forall i :: 0 <= i < |sources| && sources[i].Some? ==> sources[i].value.runtimeType in ts
    ensures forall u :: u in ts ==> exists i :: 0 <= i < |sources| && sources[i].Some? && sources[i].value.runtimeType == u
  {
    set i | 0 <= i < |sources| && sources[i].Some? :: sources[i].value.runtimeType
  }

  /** The outer `foreach` as the source runs it: each non-null source's properties come from the cache. */
  function SpreadFrom(host: Host, targetProps: seq<PropDesc>, cache: Cache, m: Merged, sources: seq<Option<Source>>): (r: (Merged, Cache))
    // with a sound cache, caching changes nothing in the result and keeps the cache sound
    ensures Sound(cache, host.introspect) ==> r.0 == Merge(host, targetProps, m, sources) && Sound(r.1, host.introspect)
    // exactly the runtime types of the non-null sources are added, and no entry is replaced
    ensures r.1.Keys == cache.Keys + RuntimeTypes(sources)
    ensures forall u :: u in cache ==> r.1[u] == cache[u]
    decreases |sources|
  {
    if |sources| == 0 then (m, cache)
    else
      assert RuntimeTypes(sources) == RuntimeTypes(sources[..1]) + RuntimeTypes(sources[1..]) by {
        forall u | u in RuntimeTypes(sources) ensures u in RuntimeTypes(sources[..1]) + RuntimeTypes(sources[1..]) {
          var i :| 0 <= i < |sources| && sources[i].Some? && sources[i].value.runtimeType == u;
          if i == 0 { assert sources[..1][0] == sources[0]; } else { assert sources[1..][i - 1] == sources[i]; }
        }
      }
      match sources[0]
      case None =>
        SpreadFrom(host, targetProps, cache, m, sources[1..])
      case Some(src) =>
        var (sourceProps, cache') := GetPropertiesCached(cache, host.introspect, src.runtimeType);
        SpreadFrom(host, targetProps, cache', ApplySource(host, targetProps, sourceProps, src, m), sources[1..])
  }

  /** What `Spread<T>` returns when every property list comes straight from introspection. */
  function SpreadUncached(host: Host, t: TypeId, sources: seq<Option<Source>>): (r: Merged)
    // the result has exactly the properties of the target type
    ensures r.target.Keys == Names(host.introspect(t))
  {
    var targetProps := host.introspect(t);
    Merge(host, targetProps, Merged(NewInstance(host, targetProps), []), sources)
  }

  /** `Spread<T>(sources)` with `t` = `typeof(T)`: the merged target, and the cache afterwards. */
  function Spread(host: Host, cache: Cache, t: TypeId, sources: seq<Option<Source>>): (r: (Merged, Cache))
    // the cache is transparent: with a sound cache the result is the uncached one
    ensures Sound(cache, host.introspect) ==> r.0 == SpreadUncached(host, t, sources) && Sound(r.1, host.introspect)
    // the target's type and the runtime types of the non-null sources are cached, nothing is replaced
    ensures r.1.Keys == cache.Keys + {t} + RuntimeTypes(sources)
    ensures forall u :: u in cache ==> r.1[u] == cache[u]
    // the result has exactly the properties of the target type
    ensures Sound(cache, host.introspect) ==> r.0.target.Keys == Names(host.introspect(t))
  {
    // `new T()` comes first and does not consult the cache
    var result := NewInstance(host, host.introspect(t));
    var (targetProps, cache') := GetPropertiesCached(cache, host.introspect, t);
    SpreadFrom(host, targetProps, cache', Merged(result, []), sources)
  }
}
