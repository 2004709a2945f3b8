/** Values shared by every part of the model: optional values, the Python
    exceptions the code raises or lets escape, decoded JSON, and order-preserving
    selection from a sequence. */
module Common {

  datatype Option<+T> = None | Some(value: T)

  /** The Python exceptions that leave the modelled functions. */
  datatype Error =
    | FileNotFoundError(path: string)
    | KeyError(key: string)
    // `.get` called on a value that is not a dict (None, a list, a string, ...)
    | AttributeError
    // `**` applied to a value that is not a mapping
    | TypeError
    // `time.sleep` given a negative length
    | ValueError

  /** Either a returned value or a raised exception; usable with `:-`. */
  datatype Result<+T> = Ok(value: T) | Err(error: Error) {
    predicate IsFailure() {
      Err?
    }

    function PropagateFailure<U>(): Result<U>
      requires Err?
    {
      Err(error)
    }

    function Extract(): T
      requires Ok?
    {
      value
    }
  }

  /** A decoded JSON document. `JNull` is also Python's `None`: the code never
      tells the two apart. Numbers are kept as their literal text. */
  datatype Json =
    | JNull
    | JBool(b: bool)
    | JNum(literal: string)
    | JStr(s: string)
    | JArr(items: seq<Json>)
    | JObj(fields: map<string, Json>)

  const EmptyObject: Json := JObj(map[])

  /** Python's `obj.get(key, default)` on a decoded JSON value. */
  function DictGet(obj: Json, key: string, default: Json): Result<Json>
  {
    match obj
    case JObj(m) => Ok(if key in m then m[key] else default)
    case _ => Err(AttributeError)
  }

  lemma AppendAssociative<T>(x: seq<T>, y: seq<T>, z: seq<T>)
    ensures x + (y + z) == x + y + z
  {
  }

  lemma AppendHeadTail<T>(a: seq<T>, b: seq<T>)
    requires a != []
    ensures (a + b)[0] == a[0] && (a + b)[1..] == a[1..] + b
  {
  }

  /** `a` is `b` with some elements left out, the rest in their order. */
  predicate IsSubsequence<T(==)>(a: seq<T>, b: seq<T>)
    decreases |b|
  {
    if a == [] then true
    else if b == [] then false
    else if a[0] == b[0] then IsSubsequence(a[1..], b[1..])
    else IsSubsequence(a, b[1..])
  }

  /** The elements of `s` that `keep` accepts, in their order (a boolean mask). */
  function Filter<T>(s: seq<T>, keep: T -> bool): (r: seq<T>)
    ensures |r| <= |s|
    ensures forall x :: x in r ==> x in s && keep(x)
  {
    if s == [] then []
    else if keep(s[0]) then [s[0]] + Filter(s[1..], keep)
    else Filter(s[1..], keep)
  }

  /** The number of positions of `s` whose element `keep` accepts. */
  function CountWhere<T>(s: seq<T>, keep: T -> bool): (n: nat)
    ensures n <= |s|
    ensures n == 0 <==> forall i :: 0 <= i < |s| ==> !keep(s[i])
  {
    if s == [] then 0
    else (if keep(s[0]) then 1 else 0) + CountWhere(s[1..], keep)
  }

  lemma {:induction false} FilterIsSubsequence<T>(s: seq<T>, keep: T -> bool)
    ensures IsSubsequence(Filter(s, keep), s)
  {
    if s != [] {
      FilterIsSubsequence(s[1..], keep);
      if !keep(s[0]) {
        SubsequenceOfTail(Filter(s[1..], keep), s);
      }
    }
  }

  lemma {:induction false} SubsequenceOfTail<T>(a: seq<T>, b: seq<T>)
    requires b != [] && IsSubsequence(a, b[1..])
    ensures IsSubsequence(a, b)
    decreases |b|, |a|
  {
    if a != [] && a[0] == b[0] {
      SubsequenceDropHead(a, b[1..]);
    }
  }

  lemma {:induction false} SubsequenceDropHead<T>(a: seq<T>, b: seq<T>)
    requires a != [] && IsSubsequence(a, b)
    ensures IsSubsequence(a[1..], b)
    decreases |b|, |a|
  {
    if a[0] == b[0] {
      SubsequenceOfTail(a[1..], b);
    } else {
      SubsequenceDropHead(a, b[1..]);
      SubsequenceOfTail(a[1..], b);
    }
  }

  lemma {:induction false} FilterCount<T>(s: seq<T>, keep: T -> bool)
    ensures |Filter(s, keep)| == CountWhere(s, keep)
  {
    if s != [] {
      FilterCount(s[1..], keep);
    }
  }

  lemma {:induction false} FilterKeepsEveryMatch<T>(s: seq<T>, keep: T -> bool, i: nat)
    requires i < |s| && keep(s[i])
    ensures s[i] in Filter(s, keep)
  {
    if i > 0 {
      FilterKeepsEveryMatch(s[1..], keep, i - 1);
    }
  }

  /** Every element of `s` that `keep` accepts is in the selection. */
  lemma {:induction false} FilterKeepsEveryMember<T>(s: seq<T>, keep: T -> bool)
    ensures forall x :: x in s && keep(x) ==> x in Filter(s, keep)
  {
    forall x | x in s && keep(x) ensures x in Filter(s, keep) {
      var i :| 0 <= i < |s| && s[i] == x;
      FilterKeepsEveryMatch(s, keep, i);
    }
  }

  /** A subsequence whose elements are all accepted has at most as many elements
      as there are accepted positions. */
  lemma {:induction false} SubsequenceCountBound<T>(t: seq<T>, s: seq<T>, keep: T -> bool)
    requires IsSubsequence(t, s)
    requires forall x :: x in t ==> keep(x)
    ensures |t| <= CountWhere(s, keep)
    decreases |s|
  {
    if t != [] {
      if t[0] == s[0] {
        assert t[0] in t;
        assert forall x :: x in t[1..] ==> x in t;
        SubsequenceCountBound(t[1..], s[1..], keep);
      } else {
        SubsequenceCountBound(t, s[1..], keep);
      }
    }
  }

  /** `Filter` is the only subsequence that holds only accepted elements and
      misses none of them: it keeps every match, in order. */
  lemma {:induction false} FilterUnique<T>(s: seq<T>, keep: T -> bool, t: seq<T>)
    requires IsSubsequence(t, s)
    requires forall x :: x in t ==> keep(x)
    requires |t| == CountWhere(s, keep)
    ensures t == Filter(s, keep)
    decreases |s|
  {
    if t == [] {
      FilterCount(s, keep);
    } else {
      assert s != [];
      if t[0] == s[0] {
        assert t[0] in t;
        assert forall x :: x in t[1..] ==> x in t;
        FilterUnique(s[1..], keep, t[1..]);
        assert t == [t[0]] + t[1..];
      } else {
        SubsequenceCountBound(t, s[1..], keep);
        if keep(s[0]) {
          assert false;
        }
        FilterUnique(s[1..], keep, t);
      }
    }
  }

  /** Two tests that agree on every element of `s` count the same. */
  lemma {:induction false} CountWhereCongruent<T>(s: seq<T>, p: T -> bool, q: T -> bool)
    requires forall x :: x in s ==> p(x) == q(x)
    ensures CountWhere(s, p) == CountWhere(s, q)
  {
    if s != [] {
      assert s[0] in s;
      assert forall x :: x in s[1..] ==> x in s;
      CountWhereCongruent(s[1..], p, q);
    }
  }

  lemma {:induction false} CountWhereAppend<T>(a: seq<T>, b: seq<T>, keep: T -> bool)
    ensures CountWhere(a + b, keep) == CountWhere(a, keep) + CountWhere(b, keep)
  {
    if a == [] {
      assert a + b == b;
    } else {
      assert (a + b)[1..] == a[1..] + b;
      CountWhereAppend(a[1..], b, keep);
    }
  }

  /** A test that is the same on every element counts all or nothing. */
  lemma {:induction false} ConstantCount<T>(s: seq<T>, keep: T -> bool)
    requires forall x, y :: x in s && y in s ==> keep(x) == keep(y)
    ensures s != [] && keep(s[0]) ==> CountWhere(s, keep) == |s|
    ensures s != [] && !keep(s[0]) ==> CountWhere(s, keep) == 0
  {
    if |s| > 1 {
      assert s[1] in s && s[0] in s;
      assert forall x :: x in s[1..] ==> x in s;
      ConstantCount(s[1..], keep);
    }
  }

  lemma {:induction false} FilterIdempotent<T>(s: seq<T>, keep: T -> bool)
    ensures Filter(Filter(s, keep), keep) == Filter(s, keep)
  {
    if s != [] {
      FilterIdempotent(s[1..], keep);
    }
  }
}
