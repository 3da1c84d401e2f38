// Table rows that move with a connection from one port to another.
module MovedRows {
  import opened Sequences

  // Removing the first row equal to this one.
  function RemoveFirst<T(==)>(rows: seq<T>, row: T): seq<T> {
    if rows == [] then [] else if rows[0] == row then rows[1..] else [rows[0]] + RemoveFirst(rows[1..], row)
  }

  // The rows on a port, and the others.
  function On<T>(rows: seq<T>, port: T -> string, p: string): seq<T> {
    if rows == [] then [] else On(rows[..|rows| - 1], port, p) + if port(rows[|rows| - 1]) == p then [rows[|rows| - 1]] else []
  }

  function Off<T>(rows: seq<T>, port: T -> string, p: string): seq<T> {
    if rows == [] then [] else Off(rows[..|rows| - 1], port, p) + if port(rows[|rows| - 1]) != p then [rows[|rows| - 1]] else []
  }

  function Relabel<T>(rows: seq<T>, withPort: (T, string) -> T, p: string): (r: seq<T>)
    ensures |r| == |rows| && forall i :: 0 <= i < |rows| ==> r[i] == withPort(rows[i], p)
  {
    seq(|rows|, i requires 0 <= i < |rows| => withPort(rows[i], p))
  }

  lemma {:induction false} RemoveFirstAt<T>(front: seq<T>, row: T, back: seq<T>)
    requires row !in front
    ensures RemoveFirst(front + [row] + back, row) == front + back
  {
    var rows := front + [row] + back;
    if front != [] {
      RemoveFirstAt(front[1..], row, back);
      assert rows[1..] == front[1..] + [row] + back;
      assert rows[0] == front[0] && front[0] in front;
    }
  }

  lemma {:induction false} OffHasNone<T>(rows: seq<T>, port: T -> string, p: string)
    ensures forall r :: r in Off(rows, port, p) ==> port(r) != p
  {
    if rows != [] { OffHasNone(rows[..|rows| - 1], port, p); }
  }

  // ----- the new tables; `same` says that source and destination are one table -----

  function LeftBehind<T>(src: seq<T>, same: bool, port: T -> string, withPort: (T, string) -> T, p: string,
      q: string): seq<T> {
    Off(src, port, p) + if same then Relabel(On(src, port, p), withPort, q) else []
  }

  function Arrived<T>(src: seq<T>, dst: seq<T>, same: bool, port: T -> string, withPort: (T, string) -> T,
                      p: string, q: string): seq<T> {
    (if same then Off(src, port, p) else dst) + Relabel(On(src, port, p), withPort, q)
  }

  // The two tables after the first k rows of the source have been looked at.
  ghost predicate Halfway<T>(src: seq<T>, dst: seq<T>, same: bool, port: T -> string, withPort: (T, string) -> T,
                             p: string, q: string, k: nat, src': seq<T>, dst': seq<T>)
    requires k <= |src|
  {
    var kept, moved := Off(src[..k], port, p) + src[k..], Relabel(On(src[..k], port, p), withPort, q);
    if same then src' == dst' == kept + moved else src' == kept && dst' == dst + moved
  }

  lemma SkipRow<T>(src: seq<T>, dst: seq<T>, same: bool, port: T -> string, withPort: (T, string) -> T,
                   p: string, q: string, k: nat, src': seq<T>, dst': seq<T>)
    requires k < |src| && port(src[k]) != p
    requires Halfway(src, dst, same, port, withPort, p, q, k, src', dst')
    ensures Halfway(src, dst, same, port, withPort, p, q, k + 1, src', dst')
  {
    assert src[..k + 1][..k] == src[..k];
    assert Off(src[..k + 1], port, p) + src[k + 1..] == Off(src[..k], port, p) + src[k..];
    assert On(src[..k + 1], port, p) == On(src[..k], port, p);
  }

  lemma MoveRow<T>(src: seq<T>, dst: seq<T>, same: bool, port: T -> string, withPort: (T, string) -> T,
                   p: string, q: string, k: nat, src': seq<T>, dst': seq<T>)
    requires k < |src| && port(src[k]) == p
    requires Halfway(src, dst, same, port, withPort, p, q, k, src', dst')
    ensures var left, row := RemoveFirst(src', src[k]), withPort(src[k], q);
            if same then Halfway(src, dst, same, port, withPort, p, q, k + 1, left + [row], left + [row])
            else Halfway(src, dst, same, port, withPort, p, q, k + 1, left, dst' + [row])
  {
    PartsNext(src, port, withPort, p, q, k);
    NextGone(src, port, p, k, if same then Relabel(On(src[..k], port, p), withPort, q) else []);
  }

  // The row at k leaves the rows off the port as they are and adds one to the moved ones.
  lemma PartsNext<T>(src: seq<T>, port: T -> string, withPort: (T, string) -> T, p: string, q: string, k: nat)
    requires k < |src| && port(src[k]) == p
    ensures Off(src[..k + 1], port, p) == Off(src[..k], port, p)
    ensures Relabel(On(src[..k + 1], port, p), withPort, q)
            == Relabel(On(src[..k], port, p), withPort, q) + [withPort(src[k], q)]
  {
    assert src[..k + 1][..k] == src[..k];
    RelabelAppend(On(src[..k], port, p), withPort, q, src[k]);
  }

  lemma NextGone<T>(src: seq<T>, port: T -> string, p: string, k: nat, back: seq<T>)
    requires k < |src| && port(src[k]) == p
    ensures RemoveFirst(Off(src[..k], port, p) + src[k..] + back, src[k]) == Off(src[..k], port, p) + src[k + 1..] + back
    ensures back == [] ==> Off(src[..k], port, p) + src[k..] + back == Off(src[..k], port, p) + src[k..]
    ensures back == [] ==> Off(src[..k], port, p) + src[k + 1..] + back == Off(src[..k], port, p) + src[k + 1..]
  {
    var off := Off(src[..k], port, p);
    OffHasNone(src[..k], port, p);
    assert off + src[k..] + back == off + [src[k]] + (src[k + 1..] + back);
    RemoveFirstAt(off, src[k], src[k + 1..] + back);
    assert off + src[k + 1..] + back == off + (src[k + 1..] + back);
  }

  lemma RelabelAppend<T>(rows: seq<T>, withPort: (T, string) -> T, q: string, row: T)
    ensures Relabel(rows + [row], withPort, q) == Relabel(rows, withPort, q) + [withPort(row, q)]
  {}

  // The loop over a copy of the source table: each row on port p is removed from the
  // source and appended to the destination under port q.
  method MoveRows<T(==)>(src: seq<T>, dst: seq<T>, same: bool, port: T -> string, withPort: (T, string) -> T,
                         p: string, q: string)
    returns (src': seq<T>, dst': seq<T>)
    requires same ==> src == dst
    ensures src' == LeftBehind(src, same, port, withPort, p, q)
    ensures dst' == Arrived(src, dst, same, port, withPort, p, q)
  {
    src', dst' := src, dst;
    for k := 0 to |src|
      invariant Halfway(src, dst, same, port, withPort, p, q, k, src', dst')
    {
      var row := src[k];
      if port(row) == p {
        MoveRow(src, dst, same, port, withPort, p, q, k, src', dst');
        src' := RemoveFirst(src', row);
        if same { dst' := src'; }
        dst' := dst' + [withPort(row, q)];
        if same { src' := dst'; }
      } else {
        SkipRow(src, dst, same, port, withPort, p, q, k, src', dst');
      }
    }
    assert src[..|src|] == src;
  }

  // ----- conservation -----

  // Up to their port, the rows off a port and the moved rows are all the rows there were.
  lemma {:induction false} RowsConserved<T, U>(rows: seq<T>, port: T -> string, withPort: (T, string) -> T, key: T -> U,
                                               p: string, q: string)
    requires forall r, x :: key(withPort(r, x)) == key(r)
    ensures multiset(MapAll(Off(rows, port, p), key)) + multiset(MapAll(Relabel(On(rows, port, p), withPort, q), key))
            == multiset(MapAll(rows, key))
  {
    if rows != [] {
      var front, last := rows[..|rows| - 1], rows[|rows| - 1];
      RowsConserved(front, port, withPort, key, p, q);
      assert MapAll(rows, key) == MapAll(front, key) + [key(last)];
      var on, off := On(front, port, p), Off(front, port, p);
      assert MapAll(Relabel(on + [last], withPort, q), key) == MapAll(Relabel(on, withPort, q), key) + [key(last)];
      assert MapAll(off + [last], key) == MapAll(off, key) + [key(last)];
      assert on + [] == on && off + [] == off;
    }
  }

  lemma MapAllConcat<T, U>(a: seq<T>, b: seq<T>, key: T -> U)
    ensures MapAll(a + b, key) == MapAll(a, key) + MapAll(b, key)
  {}

  // The rows of one table, or of two, up to their port.
  ghost function Total<T, U>(a: seq<T>, b: seq<T>, same: bool, key: T -> U): multiset<U> {
    multiset(MapAll(a, key)) + if same then multiset{} else multiset(MapAll(b, key))
  }

  lemma MoveConserves<T, U>(src: seq<T>, dst: seq<T>, same: bool, port: T -> string, withPort: (T, string) -> T,
                            key: T -> U, p: string, q: string)
    requires same ==> src == dst
    requires forall r, x :: key(withPort(r, x)) == key(r)
    ensures Total(LeftBehind(src, same, port, withPort, p, q), Arrived(src, dst, same, port, withPort, p, q), same, key)
            == Total(src, dst, same, key)
  {
    var off, moved := Off(src, port, p), Relabel(On(src, port, p), withPort, q);
    RowsConserved(src, port, withPort, key, p, q);
    MapAllConcat(off, moved, key);
    MapAllConcat(dst, moved, key);
    assert off + [] == off;
  }
}
