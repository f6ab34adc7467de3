/**
 * `Spread<T>` in the shape the source writes it: two nested `foreach` loops
 * with early `continue`s, a linear property lookup and a caught failure per
 * property, proved to compute exactly the functional `Spreader.Spread`.
 */
module SpreadImpl {
  import opened Wrappers
  import opened Reflection
  import opened PropertyCache
  import opened Spreader

  /** The body of the inner loop, statement by statement. */
  method CopyProperty(host: Host, resultProperties: seq<PropDesc>, src: Source, sourceProp: PropDesc, m: Merged)
    returns (r: Merged)
    ensures r == Record(m, TryCopy(host, resultProperties, src, sourceProp))
  {
    r := m;
    if !sourceProp.canRead {
      return;
    }
    var targetProp := FindProperty(resultProperties, sourceProp.name);
    if targetProp.Some? && targetProp.value.canWrite && host.accepts(targetProp.value.declType, sourceProp.declType) {
      var got := GetValue(src, sourceProp);
      if got.None? || host.setFails(targetProp.value, got.value) {
        r := r.(errors := r.errors + [sourceProp.name]);
      } else {
        r := r.(target := r.target[targetProp.value.name := got.value]);
      }
    }
  }

  /** The inner loop over one source's properties. */
  method CopySource(host: Host, resultProperties: seq<PropDesc>, sourceProperties: seq<PropDesc>, src: Source, m: Merged)
    returns (r: Merged)
    ensures r == ApplySource(host, resultProperties, sourceProperties, src, m)
  {
    r := m;
    var j := 0;
    while j < |sourceProperties|
      invariant 0 <= j <= |sourceProperties|
      invariant ApplySource(host, resultProperties, sourceProperties[j..], src, r)
                == ApplySource(host, resultProperties, sourceProperties, src, m)
    {
      assert sourceProperties[j..][1..] == sourceProperties[j + 1..];
      r := CopyProperty(host, resultProperties, src, sourceProperties[j], r);
      j := j + 1;
    }
  }

  /** The whole of `Spread<T>`: construct, look up the target's properties, then fold the sources. */
  method SpreadLoops(host: Host, cache: Cache, t: TypeId, sources: seq<Option<Source>>)
    returns (result: Obj, errors: seq<string>, cacheOut: Cache)
    ensures (Merged(result, errors), cacheOut) == Spread(host, cache, t, sources)
  {
    var m := Merged(NewInstance(host, host.introspect(t)), []);
    var (resultProperties, c) := GetPropertiesCached(cache, host.introspect, t);
    ghost var c0, m0 := c, m;
    var i := 0;
    while i < |sources|
      invariant 0 <= i <= |sources|
      invariant SpreadFrom(host, resultProperties, c, m, sources[i..]) == SpreadFrom(host, resultProperties, c0, m0, sources)
    {
      assert sources[i..][1..] == sources[i + 1..];
      if sources[i].Some? {
        var src := sources[i].value;
        var (sourceProperties, c') := GetPropertiesCached(c, host.introspect, src.runtimeType);
        c := c';
        m := CopySource(host, resultProperties, sourceProperties, src, m);
      }
      i := i + 1;
    }
    result, errors, cacheOut := m.target, m.errors, c;
  }
}
