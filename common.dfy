/** Vocabulary shared by every part of the backend model: optional values,
    error responses, identifiers, clock values and the percentage rounding
    used for scores and plan progress. */
module Common {

  datatype Option<+T> = None | Some(value: T)

  /** An error response as a controller sends it: HTTP status and message. */
  datatype Failure = Failure(status: nat, message: string)

  datatype Result<+T> = Ok(value: T) | Err(failure: Failure)

  /** What every controller's catch block answers for an exception thrown by the store. */
  const ServerError: Failure := Failure(500, "Server error")

  /** Document identifiers (Mongo ObjectIds); freshly generated ones are parameters. */
  type UserId = nat
  type PlanId = nat
  type TaskId = nat
  type RequestId = nat

  /** Milliseconds since the epoch, as a JavaScript `Date` holds them. */
  type Time = int

  const DayMs: int := 24 * 60 * 60 * 1000

  /** JavaScript truthiness of an optional request-body string: missing and "" are falsy. */
  predicate Truthy(s: Option<string>)
  {
    s.Some? && s.value != ""
  }

  /** A field of a request body used in an update: left out of the body, or
      given (a given null is `Given(None)`). */
  datatype Field<T> = Omitted | Given(given: T)

  /** The value an update leaves in a stored field: Mongoose drops the keys
      that are undefined in an update document, so an omitted field keeps
      what was stored. */
  function Patch<T>(f: Field<T>, stored: T): (r: T)
    ensures f.Omitted? ==> r == stored
    ensures f.Given? ==> r == f.given
  {
    match f
    case Omitted => stored
    case Given(v) => v
  }

  /** The position of an element whose key is `id` (`findById` on a
      collection, `tasks.id(id)` on an array of subdocuments). */
  function IndexOf<T, K(==)>(xs: seq<T>, key: T -> K, id: K): (r: Option<nat>)
    ensures r.Some? ==> r.value < |xs| && key(xs[r.value]) == id
    ensures r.None? ==> forall i :: 0 <= i < |xs| ==> key(xs[i]) != id
  {
    if xs == [] then None
    else if key(xs[0]) == id then Some(0)
    else match IndexOf(xs[1..], key, id)
      case None => None
      case Some(i) => Some(i + 1)
  }

  /** `findOne` on a collection keyed by `k`: the document, or null. */
  function Lookup<K, V>(m: map<K, V>, k: K): (r: Option<V>)
    ensures r.Some? <==> k in m
    ensures r.Some? ==> r.value == m[k]
  {
    if k in m then Some(m[k]) else None
  }

  /** Taking one element out of a set that holds it: what a loop over a
      collection's documents does each round. */
  lemma TakeOne<T>(all: set<T>, pending: set<T>, x: T)
    requires pending <= all && x in pending
    ensures pending - {x} <= all && |pending - {x}| == |pending| - 1
    ensures all - (pending - {x}) == (all - pending) + {x}
  {
  }

  function Min(a: int, b: int): int
  {
    if a <= b then a else b
  }

  /** `s.filter(p).length`. */
  function CountIf<T>(s: seq<T>, p: T -> bool): nat
  {
    if s == [] then 0 else (if p(s[0]) then 1 else 0) + CountIf(s[1..], p)
  }

  /** A filter keeps at most every element, and keeps every element exactly
      when all of them satisfy the predicate. */
  lemma {:induction false} CountIfBound<T>(s: seq<T>, p: T -> bool)
    ensures CountIf(s, p) <= |s|
    ensures CountIf(s, p) == |s| <==> forall i :: 0 <= i < |s| ==> p(s[i])
    ensures CountIf(s, p) == 0 <==> forall i :: 0 <= i < |s| ==> !p(s[i])
  {
    if s != [] {
      CountIfBound(s[1..], p);
      assert forall i :: 1 <= i < |s| ==> s[i] == s[1..][i - 1];
    }
  }

  /** Two filters that split every element between them count the whole sequence. */
  lemma {:induction false} CountIfPartition<T>(s: seq<T>, p: T -> bool, q: T -> bool)
    requires forall i :: 0 <= i < |s| ==> p(s[i]) != q(s[i])
    ensures CountIf(s, p) + CountIf(s, q) == |s|
  {
    if s != [] {
      CountIfPartition(s[1..], p, q);
    }
  }

  lemma CountIfOne<T>(x: T, p: T -> bool)
    ensures CountIf([x], p) == if p(x) then 1 else 0
  {
    assert [x][1..] == [];
  }

  /** A filter that keeps exactly what one of two exclusive filters keeps
      counts their sum. */
  lemma {:induction false} CountIfUnion<T>(s: seq<T>, p: T -> bool, q: T -> bool, r: T -> bool)
    requires forall i :: 0 <= i < |s| ==> (r(s[i]) <==> p(s[i]) || q(s[i])) && !(p(s[i]) && q(s[i]))
    ensures CountIf(s, r) == CountIf(s, p) + CountIf(s, q)
  {
    if s != [] {
      CountIfUnion(s[1..], p, q, r);
    }
  }

  /** A weaker filter keeps at least as many elements. */
  lemma {:induction false} CountIfMonotone<T>(s: seq<T>, p: T -> bool, q: T -> bool)
    requires forall i :: 0 <= i < |s| && p(s[i]) ==> q(s[i])
    ensures CountIf(s, p) <= CountIf(s, q)
  {
    if s != [] {
      CountIfMonotone(s[1..], p, q);
    }
  }

  lemma {:induction false} CountIfAppend<T>(a: seq<T>, b: seq<T>, p: T -> bool)
    ensures CountIf(a + b, p) == CountIf(a, p) + CountIf(b, p)
  {
    if a != [] {
      assert (a + b)[1..] == a[1..] + b;
      CountIfAppend(a[1..], b, p);
    } else {
      assert a + b == b;
    }
  }

  /** `Math.round((part / total) * 100)` in integer arithmetic: the nearest
      integer to 100 * part / total, with halves rounded up. */
  function RoundPercent(part: nat, total: nat): (r: int)
    requires total > 0
    ensures 2 * total * r <= 200 * part + total < 2 * total * (r + 1)
  {
    (200 * part + total) / (2 * total)
  }

  /** A percentage of a part of a whole lies in [0, 100]; it is 0 for an
      empty part and 100 for the whole. */
  lemma RoundPercentBounds(part: nat, total: nat)
    requires 0 < total && part <= total
    ensures 0 <= RoundPercent(part, total) <= 100
    ensures part == 0 ==> RoundPercent(part, total) == 0
    ensures part == total ==> RoundPercent(part, total) == 100
  {
    var r := RoundPercent(part, total);
    var k := 2 * total;
    assert k * r <= 200 * part + total < k * (r + 1);
    MulLessCancel(k, r, 101);
    MulLessCancel(k, 0, r + 1);
    if part == 0 {
      MulLessCancel(k, r, 1);
    }
    if part == total {
      MulLessCancel(k, 100, r + 1);
    }
  }

  lemma MulLessCancel(k: int, a: int, b: int)
    requires k > 0 && k * a < k * b
    ensures a < b
  {
    if a >= b {
      MulMonotone(k, b, a);
    }
  }

  lemma MulMonotone(k: nat, a: int, b: int)
    requires a <= b
    ensures k * a <= k * b
  {
  }
}
