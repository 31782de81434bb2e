/** The capability adapter of createMap (bench.go) for the built-in Go map,
    the one implementation whose behaviour lies inside the harness. The other
    implementations are foreign containers and only their names are known
    here. */
module StdAdapter {
  import opened Base

  /** What createMap's switch resolves a map name to. */
  datatype MapImpl = BuiltinMap | ForeignMap(name: string)

  /** The names createMap handles other than "std". */
  const ForeignMapNames: set<string> :=
    {"robin", "unordered", "robinLowLoad", "flat", "swiss", "generic", "cornelk", "sync"}

  /** createMap's dispatch: "std" is the built-in map, the eight other known
      names are foreign implementations, and any other name panics (None). */
  function ResolveMap(mapName: string): (r: Option<MapImpl>)
    ensures r == Some(BuiltinMap) <==> mapName == "std"
    ensures r.None? <==> mapName != "std" && mapName !in ForeignMapNames
    ensures r.Some? && r.value.ForeignMap? ==> r.value.name == mapName
  {
    if mapName == "std" then Some(BuiltinMap)
    else if mapName in ForeignMapNames then Some(ForeignMap(mapName))
    else None
  }

  /** handleElem: the traversal callback of the iteration benchmarks. */
  function HandleElem<K, V>(key: K, val: V): (stop: bool)
    ensures !stop
  {
    false
  }

  /** The "std" adapter: a Go map `m` behind Put/Get/Remove/Each/Load.
      `hint` is the size hint given to make, `zero` the zero value of V that
      a missing key reads as. The adapter sets no Reserve, Clear or Size. */
  class StdMap<K(==), V> {
    var m: map<K, V>
    const hint: nat
    const zero: V

    /** createMap(n, "std"): an empty map. */
    constructor (hint: nat, zero: V)
      ensures m == map[] && this.hint == hint && this.zero == zero
    {
      m := map[];
      this.hint := hint;
      this.zero := zero;
    }

    /** Insert or overwrite; reports false whether or not the key existed. */
    method Put(k: K, v: V) returns (existed: bool)
      modifies this
      ensures m == old(m)[k := v]
      ensures !existed
    {
      m := m[k := v];
      existed := false;
    }

    /** Lookup: the stored value and true, or the zero value and false. */
    method Get(k: K) returns (v: V, found: bool)
      ensures found <==> k in m
      ensures found ==> v == m[k]
      ensures !found ==> v == zero
    {
      found := k in m;
      v := if found then m[k] else zero;
    }

    /** delete(m, k); reports true whether or not the key existed. */
    method Remove(k: K) returns (existed: bool)
      modifies this
      ensures m == old(m) - {k}
      ensures existed
    {
      m := m - {k};
      existed := true;
    }

    /** range over the map in an order the runtime picks, handing each entry
        to `visit` and stopping after the first call that returns true.
        `visited` lists the keys handed over, in order. */
    method Each(visit: (K, V) -> bool) returns (visited: seq<K>)
      ensures Distinct(visited) && Elems(visited) <= m.Keys
      ensures forall i :: 0 <= i < |visited| - 1 ==> !visit(visited[i], m[visited[i]])
      ensures Elems(visited) == m.Keys
              || (|visited| > 0 && visit(visited[|visited| - 1], m[visited[|visited| - 1]]))
      ensures (forall k :: k in m ==> !visit(k, m[k])) ==> Elems(visited) == m.Keys
    {
      visited := [];
      var remaining := m.Keys;
      while remaining != {}
        invariant remaining <= m.Keys
        invariant Elems(visited) == m.Keys - remaining
        invariant Distinct(visited)
        invariant forall i :: 0 <= i < |visited| ==> visited[i] in m && !visit(visited[i], m[visited[i]])
        decreases remaining
      {
        var k :| k in remaining;
        assert Elems(visited + [k]) == Elems(visited) + {k};
        visited := visited + [k];
        if visit(k, m[k]) {
          return;
        }
        remaining := remaining - {k};
      }
    }

    /** The load factor is not known for the built-in map: always -1. */
    method Load() returns (load: real)
      ensures load == -1.0
    {
      load := -1.0;
    }
  }
}
