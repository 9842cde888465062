/** What the three carousels share: a row of "active" flags, one per slide
    (or per indicator dot), of which showing slide `i` leaves only flag `i`
    set, and the wrap-around arithmetic of the next and previous buttons. */
module Slides {

  /** The flags after showing `index` among `n` items: only `index` is set,
      and nothing at all when `index` is past the end. */
  function OneHot(n: nat, index: nat): (flags: seq<bool>)
    ensures |flags| == n
  {
    seq(n, k => k == index)
  }

  /** How many flags are set. */
  function ActiveCount(flags: seq<bool>): nat
  {
    if flags == [] then 0 else (if flags[0] then 1 else 0) + ActiveCount(flags[1..])
  }

  /** The flags of a shown item: exactly one is active when the index is in
      range, and none otherwise. */
  lemma {:induction false} OneHotCount(n: nat, index: nat)
    ensures ActiveCount(OneHot(n, index)) == if index < n then 1 else 0
    ensures index < n ==> OneHot(n, index)[index]
    decreases n
  {
    if n > 0 {
      var flags := OneHot(n, index);
      if index == 0 {
        assert flags[1..] == OneHot(n - 1, n);
        OneHotCount(n - 1, n);
      } else {
        assert flags[1..] == OneHot(n - 1, index - 1);
        OneHotCount(n - 1, index - 1);
      }
    }
  }

  /** `items.forEach(x => x.classList.remove(active))` followed by
      `if (items[index]) items[index].classList.add(active)`. */
  method ShowOnly(a: array<bool>, index: nat)
    modifies a
    ensures a[..] == OneHot(a.Length, index)
  {
    var k := 0;
    while k < a.Length
      invariant 0 <= k <= a.Length
      invariant forall j :: 0 <= j < k ==> !a[j]
    {
      a[k] := false;
      k := k + 1;
    }
    if index < a.Length {
      a[index] := true;
    }
  }

  /** `(current + 1) % length`. */
  function NextIndex(current: nat, n: nat): (r: nat)
    requires n > 0
    ensures r < n
  {
    (current + 1) % n
  }

  /** `(current - 1 + length) % length`; the sum is never negative here, so
      JavaScript's remainder and Dafny's agree. */
  function PrevIndex(current: nat, n: nat): (r: nat)
    requires n > 0
    ensures r < n
  {
    (current - 1 + n) % n
  }

  /** Next wraps from the last item to the first, and prev the other way. */
  lemma WrapAround(n: nat)
    requires n > 0
    ensures NextIndex(n - 1, n) == 0
    ensures PrevIndex(0, n) == n - 1
  {
  }

  /** Back after forth, and forth after back, is where one started. */
  lemma NextPrevInverse(current: nat, n: nat)
    requires n > 0 && current < n
    ensures PrevIndex(NextIndex(current, n), n) == current
    ensures NextIndex(PrevIndex(current, n), n) == current
  {
    if current + 1 < n {
      ModBelow(current + 1, n);
      ModBelow(current, n);
      ModAddN(current, n);
    } else {
      ModAddN(0, n);
      ModBelow(0, n);
      ModBelow(n - 1, n);
    }
    if current > 0 {
      ModAddN(current - 1, n);
      ModBelow(current - 1, n);
      ModBelow(current, n);
    } else {
      ModBelow(n - 1, n);
      ModAddN(0, n);
      ModBelow(0, n);
    }
  }

  /** From an index past the end (a dot with no slide), next and prev land
      back in range, as from `current mod n`. */
  lemma {:induction false} StepsFromOutOfRange(current: nat, n: nat)
    requires n > 0
    ensures NextIndex(current, n) == NextIndex(current % n, n)
    ensures PrevIndex(current, n) == PrevIndex(current % n, n)
    decreases current
  {
    if current >= n {
      ModAddN(current - n, n);
      ModAddN(current + 1 - n, n);
      ModAddN(current - 1, n);
      StepsFromOutOfRange(current - n, n);
    } else {
      ModBelow(current, n);
    }
  }

  /** A remainder of a number already below the divisor is that number. */
  lemma ModBelow(x: int, n: int)
    requires 0 <= x < n
    ensures x % n == x
  {
    var q, r := x / n, x % n;
    assert x == q * n + r;
    if q > 0 {
      MulAtLeast(q, n);
    } else if q < 0 {
      MulAtLeast(-q, n);
    }
  }

  /** Adding the divisor once leaves the remainder unchanged. */
  lemma ModAddN(x: int, n: int)
    requires x >= 0 && n > 0
    ensures (x + n) % n == x % n
  {
    var q, r := x / n, x % n;
    assert x + n == (q + 1) * n + r;
    var q', r' := (x + n) / n, (x + n) % n;
    assert (q + 1) * n + r == q' * n + r';
    if q' > q + 1 {
      MulAtLeast(q' - (q + 1), n);
    } else if q' < q + 1 {
      MulAtLeast((q + 1) - q', n);
    }
  }

  lemma MulAtLeast(k: int, n: int)
    requires k >= 1 && n > 0
    ensures k * n >= n
  {
  }
}
