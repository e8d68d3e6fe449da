/** Decoded YAML documents, and what lives at a path of nested maps. */
module Values {
  import opened Wrappers

  datatype Value =
    | Null
    | Bool(b: bool)
    | Num(n: real)
    | Str(s: string)
    | List(items: seq<Value>)
    | Map(entries: Tree)

  type Tree = map<string, Value>

  type Path = seq<string>

  /** Python's notion of an empty or zero value. */
  predicate Falsy(v: Value) {
    match v
    case Null => true
    case Bool(b) => !b
    case Num(n) => n == 0.0
    case Str(s) => s == ""
    case List(items) => items == []
    case Map(entries) => entries == map[]
  }

  /** There are six of them. */
  lemma FalsyExactly(v: Value)
    ensures Falsy(v) <==> v in [Null, Bool(false), Num(0.0), Str(""), List([]), Map(map[])]
  {
    var falsy := [Null, Bool(false), Num(0.0), Str(""), List([]), Map(map[])];
    assert falsy[0] in falsy && falsy[1] in falsy && falsy[2] in falsy;
    assert falsy[3] in falsy && falsy[4] in falsy && falsy[5] in falsy;
  }

  /** The value reached from `v` by following the keys of `p` through maps. */
  function Get(v: Value, p: Path): Option<Value> {
    if p == [] then Some(v)
    else if v.Map? && p[0] in v.entries then Get(v.entries[p[0]], p[1..])
    else None
  }

  /** A non-map sits on the way to `p`, so that nothing can live at `p`. */
  predicate Hides(v: Value, p: Path) {
    p != [] && (!v.Map? || (p[0] in v.entries && Hides(v.entries[p[0]], p[1..])))
  }

  /** Neither path leads through the other. */
  predicate Apart(p: Path, q: Path) {
    !(p <= q) && !(q <= p)
  }

  lemma PrefixTail(p: Path, q: Path)
    requires p != [] && q != [] && p[0] == q[0]
    ensures p <= q <==> p[1..] <= q[1..]
  {
    assert p == [p[0]] + p[1..] && q == [q[0]] + q[1..];
  }

  lemma ApartTail(p: Path, q: Path)
    requires p != [] && q != [] && p[0] == q[0] && Apart(p, q)
    ensures Apart(p[1..], q[1..])
  {
    PrefixTail(p, q);
    PrefixTail(q, p);
  }

  /** `Hides` is what its name says: some proper prefix of the path holds a non-map. */
  lemma {:induction false} HidesMeansNonMapOnTheWay(v: Value, p: Path)
    ensures Hides(v, p) <==> exists i :: 0 <= i < |p| && Get(v, p[..i]).Some? && !Get(v, p[..i]).value.Map?
  {
    if p != [] {
      assert p[..0] == [];
      if v.Map? && p[0] in v.entries {
        var c := v.entries[p[0]];
        HidesMeansNonMapOnTheWay(c, p[1..]);
        forall i | 0 <= i < |p| - 1
          ensures Get(v, p[..i + 1]) == Get(c, p[1..][..i])
        {
          assert p[..i + 1][1..] == p[1..][..i];
        }
        if i :| 0 <= i < |p| && Get(v, p[..i]).Some? && !Get(v, p[..i]).value.Map? {
          assert i > 0;
          assert Get(v, p[..i - 1 + 1]) == Get(c, p[1..][..i - 1]);
          assert Hides(c, p[1..]);
        }
      } else {
        if i :| 0 <= i < |p| && Get(v, p[..i]).Some? && !Get(v, p[..i]).value.Map? {
          assert i == 0;
        }
        if Hides(v, p) {
          assert Get(v, p[..0]).Some? && !Get(v, p[..0]).value.Map?;
        }
      }
    }
  }

  lemma {:induction false} GetExtend(v: Value, p: Path, q: Path)
    ensures Get(v, p + q) == match Get(v, p) case None => None case Some(x) => Get(x, q)
  {
    if p == [] {
      assert p + q == q;
    } else {
      assert (p + q)[0] == p[0] && (p + q)[1..] == p[1..] + q;
      if v.Map? && p[0] in v.entries {
        GetExtend(v.entries[p[0]], p[1..], q);
      }
    }
  }
}
