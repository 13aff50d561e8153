/**
 The registry of interrupt vectors: reserving, setting and freeing one vector, counting the
 free ones, and the search for a run of free vectors.
 */
module VectorRegistry {
  import opened Options

  datatype Handle =
    | Empty
    | Reserved
    | SpecialHandle(id: nat)
    | Generic(id: nat)
    | HighPerfCascading(id: nat)
    | HighPerf(id: nat)

  datatype Result = Ok(vector: nat) | Err(longest: nat)

  const VECTORS: nat := 256
  const FIRST: nat := 32                  // the vectors below are the processor's exceptions
  const PUB_VEC_START: nat := 0x21        // the lowest vector that drivers are given

  function Max(a: nat, b: nat): nat {
    if a > b then a else b
  }

  // ---------------------------------------------------------------- runs of empty vectors

  predicate Run(arr: seq<Handle>, v: nat, n: nat) {
    v + n <= |arr| && forall k :: v <= k < v + n ==> arr[k] == Empty
  }

  /** No run of n empty vectors starts at or above lo. */
  ghost predicate NoRun(arr: seq<Handle>, lo: nat, n: nat) {
    forall v :: lo <= v ==> !Run(arr, v, n)
  }

  ghost predicate Longest(arr: seq<Handle>, lo: nat, m: nat) {
    (exists v :: lo <= v && Run(arr, v, m)) && NoRun(arr, lo, m + 1)
  }

  /** What the search promises: the lowest run of the length asked for, or else the length of
      the longest run there is. */
  ghost predicate FirstFit(arr: seq<Handle>, lo: nat, req: nat, r: Result) {
    match r
    case Ok(v) => lo <= v && Run(arr, v, req) && forall u :: lo <= u < v ==> !Run(arr, u, req)
    case Err(m) => m < req && Longest(arr, lo, m)
  }

  /** The start of the run that reaches the last vector, or else the longest run. */
  ghost predicate LastRun(arr: seq<Handle>, lo: nat, r: Result) {
    match r
    case Ok(v) => lo <= v < |arr| && Run(arr, v, |arr| - v) && (lo < v ==> arr[v - 1] != Empty)
    case Err(m) => Longest(arr, lo, m) && arr != [] && arr[|arr| - 1] != Empty
  }

  /** Once a vector at or above lo is empty, all above it are. */
  predicate EmptyUpwards(arr: seq<Handle>, lo: nat) {
    forall k :: lo <= k < |arr| - 1 && arr[k] == Empty ==> arr[k + 1] == Empty
  }

  lemma {:induction false} Upwards(arr: seq<Handle>, lo: nat, k: nat)
    requires EmptyUpwards(arr, lo) && lo <= k < |arr| && arr[k] == Empty
    ensures Run(arr, k, |arr| - k)
    decreases |arr| - k
  {
    if k + 1 < |arr| {
      Upwards(arr, lo, k + 1);
    }
  }

  lemma RunPrefix(arr: seq<Handle>, v: nat, n: nat, m: nat)
    requires Run(arr, v, n) && m <= n
    ensures Run(arr, v, m)
  {
  }

  lemma NoLonger(arr: seq<Handle>, lo: nat, m: nat, n: nat)
    requires Longest(arr, lo, m) && NoRun(arr, lo, n)
    ensures m < n
  {
    var v :| lo <= v && Run(arr, v, m);
    if m >= n {
      RunPrefix(arr, v, m, n);
    }
  }

  /** For a single vector the code keeps the promise exactly when the empty vectors are one
      run that reaches the last vector, or there are none. */
  lemma SinglePromiseIff(arr: seq<Handle>, lo: nat, r: Result)
    requires lo < |arr| && LastRun(arr, lo, r)
    ensures FirstFit(arr, lo, 1, r) <==> EmptyUpwards(arr, lo)
  {
    if EmptyUpwards(arr, lo) {
      if r.Ok? {
        forall u | lo <= u < r.vector ensures !Run(arr, u, 1) {
          if arr[u] == Empty {
            Upwards(arr, lo, u);
          }
        }
      } else {
        forall u | lo <= u ensures !Run(arr, u, 1) {
          if u < |arr| && arr[u] == Empty {
            Upwards(arr, lo, u);
          }
        }
        NoLonger(arr, lo, r.longest, 1);
      }
    } else {
      var k :| lo <= k < |arr| - 1 && arr[k] == Empty && arr[k + 1] != Empty;
      assert Run(arr, k, 1);
    }
  }

  /** The run that reaches the last vector determines the result. */
  lemma LastRunUnique(arr: seq<Handle>, lo: nat, r: Result, r': Result)
    requires lo < |arr| && LastRun(arr, lo, r) && LastRun(arr, lo, r')
    ensures r == r'
  {
    if r.Err? && r'.Err? {
      NoLonger(arr, lo, r.longest, r'.longest + 1);
      NoLonger(arr, lo, r'.longest, r.longest + 1);
    }
  }

  /** A request for one vector fails although vectors are free: whatever the search answers
      is the error, and the promise asks for the first vector. */
  lemma SingleRequestFails(arr: seq<Handle>, r: Result)
    requires |arr| == VECTORS && arr[VECTORS - 1] == Reserved
    requires forall k :: FIRST <= k < VECTORS - 1 ==> arr[k] == Empty
    requires LastRun(arr, FIRST, r)
    ensures r == Err(223) && !FirstFit(arr, FIRST, 1, r)
    ensures FirstFit(arr, FIRST, 1, Ok(FIRST))
  {
    assert Run(arr, FIRST, 223);
    assert Run(arr, FIRST, 1);
    LastRunUnique(arr, FIRST, r, Err(223));
  }

  /** A request for several vectors fails exactly when there is no such run. */
  lemma FirstFitFails(arr: seq<Handle>, lo: nat, req: nat, r: Result)
    requires FirstFit(arr, lo, req, r)
    ensures r.Err? <==> NoRun(arr, lo, req)
  {
    if r.Err? {
      forall v | lo <= v ensures !Run(arr, v, req) {
        if Run(arr, v, req) {
          RunPrefix(arr, v, req, r.longest + 1);
        }
      }
    }
  }

  /** How many vectors are empty. */
  function Empties(arr: seq<Handle>): nat {
    if arr == [] then 0 else Empties(arr[..|arr| - 1]) + (if arr[|arr| - 1] == Empty then 1 else 0)
  }

  lemma {:induction false} EmptiesAll(arr: seq<Handle>)
    ensures Empties(arr) <= |arr|
    ensures Empties(arr) == |arr| <==> Run(arr, 0, |arr|)
  {
    if arr != [] {
      EmptiesAll(arr[..|arr| - 1]);
    }
  }

  lemma {:induction false} EmptiesCounts(arr: seq<Handle>)
    ensures Empties(arr) == |set k | 0 <= k < |arr| && arr[k] == Empty|
  {
    var s := set k | 0 <= k < |arr| && arr[k] == Empty;
    if arr == [] {
      assert s == {};
    } else {
      var init := arr[..|arr| - 1];
      EmptiesCounts(init);
      var s' := set k | 0 <= k < |init| && init[k] == Empty;
      assert s == if arr[|arr| - 1] == Empty then s' + {|arr| - 1} else s';
    }
  }

  // ---------------------------------------------------------------- the registry

  class HandleRegistry {
    const arr: array<Handle>
    var locked: bool

    ghost predicate Valid() {
      arr.Length == VECTORS
    }

    constructor ()
      ensures Valid() && fresh(arr) && !locked && Run(arr[..], 0, VECTORS)
    {
      arr := new Handle[VECTORS](_ => Empty);
      locked := false;
    }

    method Reserve(vector: nat) returns (ok: bool)
      requires Valid() && vector < VECTORS
      modifies arr
      ensures ok <==> old(arr[vector]) == Empty
      ensures arr[..] == if ok then old(arr[..])[vector := Reserved] else old(arr[..])
    {
      ok := arr[vector] == Empty;
      if ok {
        arr[vector] := Reserved;
      }
    }

    /** Only two kinds of handler are kept: the high-performance kinds are overwritten. */
    method Set(vector: nat, handle: Handle) returns (ok: bool)
      requires Valid() && vector < VECTORS
      modifies arr
      ensures ok <==> !(old(arr[vector]).SpecialHandle? || old(arr[vector]).Generic?)
      ensures arr[..] == if ok then old(arr[..])[vector := handle] else old(arr[..])
    {
      match arr[vector]
      case SpecialHandle(_) => ok := false;
      case Generic(_) => ok := false;
      case _ =>
        arr[vector] := handle;
        ok := true;
    }

    method FreeIrq(vector: nat) returns (ok: bool)
      requires Valid() && vector < VECTORS
      modifies arr
      ensures ok <==> old(arr[vector]) != Empty
      ensures arr[..] == old(arr[..])[vector := Empty]
    {
      var e := arr[vector];
      arr[vector] := Empty;
      ok := e != Empty;
    }

    /** `get_free` counts in a byte: the count is right exactly when some vector is taken. */
    method GetFree() returns (count: nat)
      requires Valid()
      ensures count == Empties(arr[..]) <==> !Run(arr[..], 0, VECTORS)
      ensures Run(arr[..], 0, VECTORS) ==> count == 0
    {
      count := 0;
      for i := 0 to VECTORS
        invariant count == Empties(arr[..i]) % 256
      {
        assert arr[..i + 1][..i] == arr[..i];
        if arr[i] == Empty {
          count := (count + 1) % 256;
        }
      }
      assert arr[..VECTORS] == arr[..];
      EmptiesAll(arr[..]);
    }

    /** The loop of `reserve_contiguous`. */
    method Search(lo: nat, req: nat) returns (foundStart: Option<nat>, found: nat, max: nat)
      requires Valid() && lo < VECTORS
      ensures foundStart.None? <==> found == 0
      ensures req >= 2 && found >= req ==> FirstFit(arr[..], lo, req, Ok(foundStart.value))
      ensures req >= 2 && found < req ==> FirstFit(arr[..], lo, req, Err(Max(max, found)))
      ensures req <= 1 && found > 0 ==> LastRun(arr[..], lo, Ok(foundStart.value))
      ensures req <= 1 && found == 0 ==> LastRun(arr[..], lo, Err(Max(max, found)))
    {
      max, found, foundStart := 0, 0, None;
      ghost var s := arr[..];
      ghost var widest := lo;
      for i := lo to VECTORS
        invariant foundStart.None? <==> found == 0
        invariant foundStart.Some? ==> foundStart.value + found == i
        invariant lo + found <= i && Run(s, i - found, found) && (lo < i - found ==> s[i - found - 1] != Empty)
        invariant lo <= widest && Run(s, widest, max)
        invariant forall v, n: nat :: lo <= v < i - found && Run(s, v, n) ==> n <= max
        invariant req >= 2 ==> found < req && max < req
      {
        if arr[i] == Empty {
          if foundStart.None? {
            foundStart, found := Some(i), 1;
          } else {
            found := found + 1;
            if found == req {
              return;
            }
          }
        } else {
          if found > max {
            widest := i - found;
          }
          max, found, foundStart := Max(max, found), 0, None;
        }
      }
      if found > max {
        assert Run(s, VECTORS - found, found);
      } else {
        assert Run(s, widest, max);
      }
    }

    method ReserveContiguous(start: nat, req: nat) returns (r: Result)
      requires Valid() && start < VECTORS && req < 256
      modifies arr
      ensures req >= 2 ==> FirstFit(old(arr[..]), Max(start, FIRST), req, r)
      ensures req <= 1 ==> LastRun(old(arr[..]), Max(start, FIRST), r)
      ensures r.Err? ==> arr[..] == old(arr[..])
      ensures r.Ok? ==> forall k :: 0 <= k < VECTORS ==>
                          arr[k] == if r.vector <= k < r.vector + req then Reserved else old(arr[k])
    {
      var lo := Max(start, FIRST);
      var foundStart, found, max := Search(lo, req);
      if found < req {
        return Err(Max(max, found));
      }
      if foundStart.None? {
        return Err(Max(max, found));
      }
      var vec := foundStart.value;
      for i := vec to vec + req
        invariant forall k :: 0 <= k < VECTORS ==> arr[k] == if vec <= k < i then Reserved else old(arr[k])
      {
        arr[i] := Reserved;
      }
      r := Ok(vec);
    }

    /** `reserve_irq` leaves the registry locked exactly when there is no run of that many
        free vectors, for a single one exactly when the last vector is taken. */
    method ReserveIrq(priority: nat, count: nat) returns (r: Result)
      requires Valid() && priority < VECTORS && 0 < count < 256 && !locked
      modifies this`locked, arr
      ensures count >= 2 ==> FirstFit(old(arr[..]), Max(priority, PUB_VEC_START), count, r)
      ensures count == 1 ==> LastRun(old(arr[..]), Max(priority, PUB_VEC_START), r)
      ensures r.Err? ==> arr[..] == old(arr[..])
      ensures r.Ok? ==> forall k :: 0 <= k < VECTORS ==>
                          arr[k] == if r.vector <= k < r.vector + count then Reserved else old(arr[k])
      ensures locked <==> if count == 1 then old(arr[VECTORS - 1]) != Empty
                          else NoRun(old(arr[..]), Max(priority, PUB_VEC_START), count)
    {
      locked := true;
      r := ReserveContiguous(Max(priority, PUB_VEC_START), count);
      if count >= 2 {
        FirstFitFails(old(arr[..]), Max(priority, PUB_VEC_START), count, r);
      }
      if r.Ok? {
        locked := false;
      }
    }
  }
}
