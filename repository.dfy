/**
 * The base Repository (src/DataAccess/TasksTracker.Sqlite/Repositories/Repository.cs):
 * the page window GetPaginatedList hands to its query. C# int arithmetic is
 * unchecked here, so the offset wraps around at 32 bits.
 */
module Pagination {

  const Int32Min: int := -0x8000_0000
  const Int32Max: int := 0x7fff_ffff

  type Int32 = x: int | Int32Min <= x <= Int32Max

  /** Unchecked C# int arithmetic: the result reduced into the int range modulo 2^32. */
  function Wrap32(x: int): (r: Int32)
    ensures (r - x) % 0x1_0000_0000 == 0
    ensures Int32Min <= x <= Int32Max ==> r == x
  {
    (x - Int32Min) % 0x1_0000_0000 + Int32Min
  }

  /** The RowCount and Offset parameters of the paginated query. */
  datatype PageQuery = PageQuery(rowCount: int, offset: int)

  /** GetPaginatedList(pageNumber, pageSize): RowCount = pageSize, Offset = pageSize * (pageNumber - 1) in int. */
  function PageWindow(pageNumber: Int32, pageSize: Int32): (q: PageQuery)
    ensures q.rowCount == pageSize
    ensures Int32Min <= q.offset <= Int32Max
    ensures (q.offset - pageSize * (pageNumber - 1)) % 0x1_0000_0000 == 0
  {
    PageOffsetCongruent(pageNumber, pageSize);
    PageQuery(pageSize, Wrap32(pageSize * Wrap32(pageNumber - 1)))
  }

  /** The wrapped offset differs from the exact product by a multiple of 2^32. */
  lemma PageOffsetCongruent(pageNumber: Int32, pageSize: Int32)
    ensures (Wrap32(pageSize * Wrap32(pageNumber - 1)) - pageSize * (pageNumber - 1)) % 0x1_0000_0000 == 0
  {
    var k := Wrap32(pageNumber - 1);
    MulCongruent(pageSize, k, pageNumber - 1);
    CongruentTrans(Wrap32(pageSize * k), pageSize * k, pageSize * (pageNumber - 1));
  }

  /** Congruence modulo 2^32 is transitive. */
  lemma CongruentTrans(x: int, y: int, z: int)
    requires (x - y) % 0x1_0000_0000 == 0 && (y - z) % 0x1_0000_0000 == 0
    ensures (x - z) % 0x1_0000_0000 == 0
  {
    var t1 := (x - y) / 0x1_0000_0000;
    var t2 := (y - z) / 0x1_0000_0000;
    assert x - z == 0x1_0000_0000 * (t1 + t2);
  }

  /** The default arguments (1, 10) ask for the first ten rows. */
  lemma DefaultPageWindow()
    ensures PageWindow(1, 10) == PageQuery(10, 0)
  {
  }

  /** While the product fits in an int, the offset is the number of rows on the earlier pages. */
  lemma PageOffsetExact(pageNumber: Int32, pageSize: Int32)
    requires pageNumber >= 1 && pageSize >= 0
    requires pageSize * (pageNumber - 1) <= Int32Max
    ensures PageWindow(pageNumber, pageSize).rowCount == pageSize
    ensures PageWindow(pageNumber, pageSize).offset == pageSize * (pageNumber - 1) >= 0
  {
    var k := pageNumber - 1;
    assert Wrap32(k) == k;
    MulNonNegative(pageSize, k);
  }

  /** While no product overflows, the next page starts exactly pageSize rows later. */
  lemma ConsecutivePages(pageNumber: Int32, pageSize: Int32)
    requires pageNumber >= 1 && pageSize >= 0 && pageNumber + 1 <= Int32Max
    requires pageSize * pageNumber <= Int32Max
    ensures PageWindow(pageNumber + 1, pageSize).offset == PageWindow(pageNumber, pageSize).offset + pageSize
  {
    MulSucc(pageSize, pageNumber - 1);
    PageOffsetExact(pageNumber, pageSize);
    PageOffsetExact(pageNumber + 1, pageSize);
  }

  /** As written, page 214748366 of size 10 gets a negative offset: the product overflows int. */
  lemma PageOffsetWraps()
    ensures PageWindow(214748366, 10).offset == -2147483646
  {
    assert 10 * Wrap32(214748366 - 1) == 2147483650;
  }

  /** The page window with the offset computed in 64-bit long arithmetic, where no int product overflows. */
  function PageWindowWide(pageNumber: Int32, pageSize: Int32): (q: PageQuery)
    ensures q.rowCount == pageSize
  {
    PageQuery(pageSize, pageSize * (pageNumber - 1))
  }

  /** With the wide offset, pages from 1 on never start before row 0 and follow one another by pageSize rows. */
  lemma PageWindowWideSpec(pageNumber: Int32, pageSize: Int32)
    requires pageNumber >= 1 && pageSize >= 0
    ensures PageWindowWide(pageNumber, pageSize).offset >= 0
    ensures pageNumber + 1 <= Int32Max ==>
      PageWindowWide(pageNumber + 1, pageSize).offset == PageWindowWide(pageNumber, pageSize).offset + pageSize
    ensures pageSize * (pageNumber - 1) <= Int32Max ==>
      PageWindowWide(pageNumber, pageSize) == PageWindow(pageNumber, pageSize)
  {
    MulNonNegative(pageSize, pageNumber - 1);
    MulSucc(pageSize, pageNumber - 1);
    if pageSize * (pageNumber - 1) <= Int32Max {
      PageOffsetExact(pageNumber, pageSize);
    }
  }

  /** Multiplying two numbers congruent modulo 2^32 by the same factor keeps them congruent. */
  lemma MulCongruent(a: int, x: int, y: int)
    requires (x - y) % 0x1_0000_0000 == 0
    ensures (a * x - a * y) % 0x1_0000_0000 == 0
  {
    var t := (x - y) / 0x1_0000_0000;
    assert x - y == 0x1_0000_0000 * t;
    assert a * x - a * y == a * (x - y) == 0x1_0000_0000 * (a * t);
  }

  lemma MulNonNegative(a: int, b: int)
    requires 0 <= a && 0 <= b
    ensures 0 <= a * b
  {
  }

  lemma MulSucc(a: int, b: int)
    ensures a * (b + 1) == a * b + a
  {
  }
}
