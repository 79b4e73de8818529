/** Values shared by every component of the hand model: optional values,
    Unity's vectors over the reals, the hand-type setting of a grabbable and
    the list operations of C#'s generic List that the components rely on. */
module Common {

  datatype Option<+T> = None | Some(value: T)

  /** A Unity Vector3; float arithmetic is modelled over the reals. */
  datatype Vec3 = Vec3(x: real, y: real, z: real) {
    function Plus(o: Vec3): Vec3 { Vec3(x + o.x, y + o.y, z + o.z) }
    function Minus(o: Vec3): Vec3 { Vec3(x - o.x, y - o.y, z - o.z) }
    function Scale(k: real): Vec3 { Vec3(k * x, k * y, k * z) }
  }

  const Zero: Vec3 := Vec3(0.0, 0.0, 0.0)

  /** A Unity Quaternion, kept only as a value that is stored and reset. */
  datatype Quat = Quat(x: real, y: real, z: real, w: real)

  const Identity: Quat := Quat(0.0, 0.0, 0.0, 1.0)

  /** Which hands may hold a grabbable (the enum HandType; `none` is Neither). */
  datatype HandType = Both | Right | Left | Neither

  /** A render material, compared by identity. */
  datatype Material = Material(id: nat)

  predicate NoDuplicates<T(==)>(s: seq<T>) {
    forall i, j :: 0 <= i < j < |s| ==> s[i] != s[j]
  }

  /** C#'s List.Remove: drops the first occurrence of x, if there is one. */
  function RemoveFirst<T(==)>(s: seq<T>, x: T): (r: seq<T>)
    ensures x in s ==> |r| == |s| - 1 && multiset(r) == multiset(s) - multiset{x}
    ensures x !in s ==> r == s
    ensures forall y :: y in r ==> y in s
    decreases s
  {
    if s == [] then []
    else if s[0] == x then assert s == [s[0]] + s[1..]; s[1..]
    else assert s == [s[0]] + s[1..]; [s[0]] + RemoveFirst(s[1..], x)
  }

  /** List.Remove keeps every element other than the one removed. */
  lemma {:induction false} RemoveFirstKeeps<T>(s: seq<T>, x: T, y: T)
    requires y in s && y != x
    ensures y in RemoveFirst(s, x)
    decreases s
  {
    if s[0] != x && s[0] != y {
      RemoveFirstKeeps(s[1..], x, y);
    }
  }

  /** On a list without repeats, List.Remove takes exactly x out of the
      set of elements. */
  lemma RemoveFirstElements<T>(s: seq<T>, x: T)
    requires NoDuplicates(s)
    ensures (set q | q in RemoveFirst(s, x)) == (set q | q in s) - {x}
  {
    RemoveFirstNoDuplicates(s, x);
    forall y | y in s && y != x
      ensures y in RemoveFirst(s, x)
    {
      RemoveFirstKeeps(s, x, y);
    }
  }

  /** C#'s List.IndexOf: the first index holding x, or -1. */
  function IndexOf<T(==)>(s: seq<T>, x: T): (r: int)
    ensures -1 <= r
    ensures r == -1 <==> x !in s
    ensures 0 <= r ==> r < |s| && s[r] == x && x !in s[..r]
    decreases s
  {
    if s == [] then -1
    else if s[0] == x then 0
    else
      var k := IndexOf(s[1..], x);
      if k == -1 then -1 else assert s[k + 1] == s[1..][k]; assert s[..k + 1] == [s[0]] + s[1..][..k]; k + 1
  }

  /** Removing the last element of a list without duplicates leaves the rest. */
  lemma {:induction false} RemoveFirstLast<T>(p: seq<T>, x: T)
    requires NoDuplicates(p + [x])
    ensures RemoveFirst(p + [x], x) == p
    decreases p
  {
    if p != [] {
      assert (p + [x])[0] == p[0];
      assert p[0] != x by { assert (p + [x])[0] != (p + [x])[|p|]; }
      assert (p + [x])[1..] == p[1..] + [x];
      forall i, j | 0 <= i < j < |p[1..] + [x]|
        ensures (p[1..] + [x])[i] != (p[1..] + [x])[j]
      {
        assert (p[1..] + [x])[i] == (p + [x])[i + 1];
        assert (p[1..] + [x])[j] == (p + [x])[j + 1];
      }
      RemoveFirstLast(p[1..], x);
      assert [p[0]] + p[1..] == p;
    }
  }

  /** List.Remove keeps a duplicate-free list duplicate-free and removes x from it. */
  lemma {:induction false} RemoveFirstNoDuplicates<T>(s: seq<T>, x: T)
    requires NoDuplicates(s)
    ensures NoDuplicates(RemoveFirst(s, x)) && x !in RemoveFirst(s, x)
    decreases s
  {
    if s != [] {
      assert NoDuplicates(s[1..]) by {
        forall i, j | 0 <= i < j < |s[1..]| ensures s[1..][i] != s[1..][j] {
          assert s[1..][i] == s[i + 1] && s[1..][j] == s[j + 1];
        }
      }
      if s[0] == x {
        assert x !in s[1..] by {
          forall k | 0 <= k < |s[1..]| ensures s[1..][k] != x { assert s[1..][k] == s[k + 1]; }
        }
      } else {
        RemoveFirstNoDuplicates(s[1..], x);
        var t := RemoveFirst(s[1..], x);
        assert s[0] !in t by {
          assert s[0] !in s[1..] by {
            forall k | 0 <= k < |s[1..]| ensures s[1..][k] != s[0] { assert s[1..][k] == s[k + 1]; }
          }
        }
        assert RemoveFirst(s, x) == [s[0]] + t;
        forall i, j | 0 <= i < j < |[s[0]] + t|
          ensures ([s[0]] + t)[i] != ([s[0]] + t)[j]
        {
          if i == 0 {
            assert ([s[0]] + t)[j] == t[j - 1];
          } else {
            assert ([s[0]] + t)[i] == t[i - 1] && ([s[0]] + t)[j] == t[j - 1];
          }
        }
      }
    }
  }
}
