/** How a chunk is cut out of a larger mapping so that it is aligned. */
module ChunkMapping {

  datatype Area = Area(start: nat, length: nat)

  lemma Grows(d: nat, m: nat)
    requires d >= 1
    ensures d * m >= m
  {
  }

  lemma ModUnique(a: nat, m: nat, q: nat, r: nat)
    requires m > 0 && a == q * m + r && r < m
    ensures a % m == r
  {
    var q', r' := a / m, a % m;
    assert a == q' * m + r';
    if q' > q {
      Grows(q' - q, m);
    } else if q' < q {
      Grows(q - q', m);
    }
  }

  /** The offset of a page-aligned address is a whole number of pages. */
  lemma OffsetInPages(k: nat, m: nat, page: nat)
    requires page > 0 && m > 0
    ensures m * page > 0 && (k * page) % (m * page) == (k % m) * page
  {
    var q, r := k / m, k % m;
    assert k == q * m + r;
    assert k * page == q * (m * page) + r * page by {
      assert (q * m + r) * page == (q * m) * page + r * page;
      assert (q * m) * page == q * (m * page);
    }
    assert r * page < m * page by {
      assert (m - r) * page > 0;
      assert (m - r) * page == m * page - r * page;
    }
    assert m * page > 0;
    ModUnique(k * page, m * page, q, r * page);
  }

  /** The second half of zend_mm_chunk_alloc_int, for a mapping of `size + alignment - page` bytes at
      `ptr`: the areas `front` and `tail` go back to the OS. */
  method Trim(ptr: nat, size: nat, alignment: nat, page: nat, ghost k: nat, ghost m: nat)
    returns (chunk: nat, front: Area, tail: Area)
    requires page > 0 && m > 0 && alignment == m * page && ptr == k * page
    ensures alignment > 0 && chunk % alignment == 0
    ensures front.start == ptr && front.start + front.length == chunk && tail.start == chunk + size
    ensures tail.start + tail.length == ptr + size + alignment - page
  {
    OffsetInPages(k, m, page);
    var rest := alignment;
    var offset := ptr % alignment;
    front := Area(ptr, 0);
    chunk := ptr;
    if offset != 0 {
      OffsetAtLeastPage(k % m, page);
      offset := alignment - offset;
      front := Area(ptr, offset);
      NextMultiple(ptr, alignment);
      chunk := ptr + offset;
      rest := rest - offset;
    } else {
      OffsetAtLeastPage(m, page);
    }
    tail := Area(chunk + size, 0);
    if rest > page {
      tail := Area(chunk + size, rest - page);
    }
  }

  lemma OffsetAtLeastPage(n: nat, page: nat)
    ensures n * page != 0 ==> n * page >= page
  {
  }

  lemma NextMultiple(p: nat, a: nat)
    requires a > 0
    ensures (p + (a - p % a)) % a == 0
  {
    var q := p / a;
    assert p + (a - p % a) == (q + 1) * a + 0;
    ModUnique(p + (a - p % a), a, q + 1, 0);
  }
}
