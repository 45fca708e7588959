// Buffer<count> of the large backward convolution: count zero-padded rows
// in one allocation that rotate as the kernel walks down the image.  Each
// row holds the data of one source row at offset count - 1, with count - 1
// zeros on the left and at least count - 1 zeros on the right.

module NeuralBuffer {
  import opened Lanes

  /** What Update copies into the recycled row: a source row, or NULL for zeros. */
  datatype Option<T> = None | Some(value: T)

  /** Position p of the incoming data: the source row, or 0 for NULL. */
  function Incoming(src: Option<seq<real>>, p: nat): real
    requires src.Some? ==> p < |src.value|
  {
    match src
    case None => 0.0
    case Some(s) => s[p]
  }

  /** The row length of Buffer<count> for rows of width values. */
  function Stride(count: nat, width: nat): (s: nat)
    requires 1 <= count
    ensures s % F == 0 && width + 2 * (count - 1) <= s < width + 2 * (count - 1) + F
  {
    AlignHi(width + 2 * (count - 1), F)
  }

  /** Rows of length stride starting at the given offsets do not overlap. */
  ghost predicate Apart(rows: seq<nat>, stride: nat) {
    forall i, k :: 0 <= i < |rows| && 0 <= k < |rows| && i != k ==>
      rows[i] + stride <= rows[k] || rows[k] + stride <= rows[i]
  }

  /** Rotating the row offsets keeps them apart. */
  lemma ApartRotated(rows: seq<nat>, stride: nat)
    requires |rows| >= 1 && Apart(rows, stride)
    ensures Apart(rows[1..] + [rows[0]], stride)
  {
    var r := rows[1..] + [rows[0]];
    forall i, k | 0 <= i < |r| && 0 <= k < |r| && i != k
      ensures r[i] + stride <= r[k] || r[k] + stride <= r[i]
    {
      var i' := if i + 1 < |rows| then i + 1 else 0;
      var k' := if k + 1 < |rows| then k + 1 else 0;
      assert r[i] == rows[i'] && r[k] == rows[k'] && i' != k';
    }
  }

  class RowBuffer {
    /** The number of rows, K. */
    const count: nat
    /** The number of data values in a row (the source width). */
    const size: nat
    /** The length of every row. */
    const stride: nat
    /** The one allocation of count * stride values that holds the rows. */
    const data: array<real>
    /** rows[i] is where row i starts in data: rows[0] the oldest, rows[count - 1] the newest. */
    var rows: seq<nat>

    /** The rows lie inside the allocation and do not overlap. */
    ghost predicate Valid()
      reads this
    {
      2 <= count && stride == Stride(count, size) && |rows| == count
      && (forall i :: 0 <= i < count ==> rows[i] + stride <= data.Length)
      && Apart(rows, stride)
    }

    /** Row i as a sequence of stride values. */
    ghost function Row(i: nat): (r: seq<real>)
      requires Valid() && i < count
      reads this, data
      ensures |r| == stride && forall p :: 0 <= p < stride ==> r[p] == data[rows[i] + p]
    {
      data[rows[i]..rows[i] + stride]
    }

    /** Buffer(width): count rows of Stride(count, width) zeros, one after another. */
    constructor(count: nat, width: nat)
      requires 2 <= count
      ensures this.count == count && size == width && Valid() && fresh(data)
      ensures forall x :: 0 <= x < data.Length ==> data[x] == 0.0
    {
      var s := Stride(count, width);
      var all := new real[count * s](_ => 0.0);
      var rs: seq<nat> := [0];
      while |rs| < count
        invariant 1 <= |rs| <= count
        invariant rs[|rs| - 1] + s == |rs| * s
        invariant forall i, k :: 0 <= i < k < |rs| ==> rs[i] + s <= rs[k]
      {
        assert (|rs| + 1) * s == |rs| * s + s;
        rs := rs + [rs[|rs| - 1] + s];
      }
      assert forall i :: 0 <= i < count ==> rs[i] + s <= count * s;
      this.count := count;
      size := width;
      stride := s;
      data := all;
      rows := rs;
    }

    /**
     * Update(src): the oldest row is recycled as the newest; it receives
     * the source row (or zeros) at positions count - 1 .. count - 2 + size
     * and keeps its other positions.  The other rows move down by one.
     */
    method Update(src: Option<seq<real>>)
      requires Valid()
      requires src.Some? ==> size <= |src.value|
      modifies this, data
      ensures Valid()
      ensures rows == old(rows[1..]) + [old(rows[0])]
      ensures forall q :: 0 <= q < size ==> data[rows[count - 1] + count - 1 + q] == Incoming(src, q)
      ensures forall x :: 0 <= x < data.Length && !(rows[count - 1] + count - 1 <= x < rows[count - 1] + count - 1 + size) ==>
                data[x] == old(data[x])
    {
      var tmp := rows[0];
      Fill(tmp + count - 1, src);
      Rotate();
      ApartRotated(old(rows), stride);
    }

    /** The copy loop of Update: the source row (or zeros) into data from position at on. */
    method Fill(at: nat, src: Option<seq<real>>)
      requires at + size <= data.Length
      requires src.Some? ==> size <= |src.value|
      modifies data
      ensures forall x :: 0 <= x < data.Length ==>
                data[x] == if at <= x < at + size then Incoming(src, x - at) else old(data[x])
    {
      var p := 0;
      while p < size
        invariant p <= size
        invariant forall x :: 0 <= x < data.Length ==>
                    data[x] == if at <= x < at + p then Incoming(src, x - at) else old(data[x])
      {
        data[at + p] := Incoming(src, p);
        p := p + 1;
      }
    }

    /** The rotation of Update: every row moves down by one and the oldest becomes the newest. */
    method Rotate()
      requires |rows| == count >= 1
      modifies this
      ensures rows == old(rows[1..]) + [old(rows[0])]
    {
      var tmp := rows[0];
      var i := 0;
      while i < count - 1
        invariant i <= count - 1 && |rows| == count
        invariant forall k :: 0 <= k < i ==> rows[k] == old(rows[k + 1])
        invariant forall k :: i <= k < count ==> rows[k] == old(rows[k])
      {
        rows := rows[i := rows[i + 1]];
        i := i + 1;
      }
      rows := rows[count - 1 := tmp];
    }

    /** The current contents of the rows, oldest first. */
    function Contents(): (c: seq<seq<real>>)
      requires Valid()
      reads this, data
      ensures |c| == count && forall i :: 0 <= i < count ==> c[i] == Row(i)
    {
      seq(count, i requires Valid() && 0 <= i < count reads this, data => data[rows[i]..rows[i] + stride])
    }
  }
}
