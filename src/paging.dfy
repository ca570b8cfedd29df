/** The integer arithmetic shared by the bot's paginated lists: `Math.ceil`
    of a page count, Prisma's `skip`/`take` window and `Array.prototype.slice`. */
module Paging {

  /** `Math.ceil(a / b)` for non-negative integers, characterised as the least
      number of pages of `b` items that hold `a` items. */
  function CeilDiv(a: nat, b: nat): (pages: nat)
    requires b > 0
    ensures pages * b >= a
    ensures pages == 0 || (pages - 1) * b < a
  {
    (a + b - 1) / b
  }

  /** `min(x, y)` on naturals. */
  function Min(x: nat, y: nat): nat {
    if x <= y then x else y
  }

  /** `items.slice(start, end)` for non-negative bounds: both bounds are clamped
      to the length and an inverted range gives the empty array. */
  function Slice<T>(items: seq<T>, start: nat, end: nat): (r: seq<T>)
    ensures |r| <= |items|
    ensures start <= end <= |items| ==> r == items[start..end]
    ensures end <= start ==> r == []
  {
    var lo := Min(start, |items|);
    var hi := Min(end, |items|);
    if lo <= hi then items[lo..hi] else []
  }

  /** The rows a query with `skip: skip, take: take` returns from `items`. */
  function Window<T>(items: seq<T>, skip: nat, take: nat): (r: seq<T>)
    ensures |r| <= take
    ensures forall k :: 0 <= k < |r| ==> skip + k < |items| && r[k] == items[skip + k]
    ensures skip + take <= |items| ==> |r| == take
    ensures skip <= |items| < skip + take ==> |r| == |items| - skip
  {
    Slice(items, skip, skip + take)
  }

  /** Every item lies on exactly one page: item `i` is on page `i / size`
      and on no other. */
  lemma {:induction false} ItemOnExactlyOnePage<T>(items: seq<T>, size: nat, i: nat, page: nat)
    requires size > 0 && i < |items|
    ensures (page * size <= i < page * size + size) <==> page == i / size
    ensures page == i / size ==> Window(items, page * size, size)[i - page * size] == items[i]
  {
    var q := i / size;
    assert q * size <= i < q * size + size;
    if page < q {
      assert page + 1 <= q;
      assert (page + 1) * size <= q * size by {
        MulMonotone(page + 1, q, size);
      }
    } else if page > q {
      assert q + 1 <= page;
      assert (q + 1) * size <= page * size by {
        MulMonotone(q + 1, page, size);
      }
    }
  }

  lemma MulMonotone(a: nat, b: nat, c: nat)
    requires a <= b
    ensures a * c <= b * c
  {
  }
}
