/** The open elements of a header: where each kind may stand, and what closing one leaves open. */
module HeaderStack {
  import opened Base

  /** Elements of the XISF namespace that the parser treats specially, all others in it, and those outside it. */
  datatype Name =
    | Xisf
    | Reference
    | Table
    | Structure
    | Field
    | Row
    | Cell
    | IccProfile
    | Ancillary
    | Thumbnail
    | Data
    | Image
    | Metadata
    | Property
    | FitsKeyword
    | Other(text: string)
    | Foreign(text: string)

  /** The kinds for which the parser remembers one open index. */
  predicate Tracked(n: Name) {
    n.Image? || n.Table? || n.Structure? || n.Row? || n.Cell? || n.Thumbnail? || n.Data?
  }

  function Top(s: seq<Name>): Name
    requires s != []
  {
    s[|s| - 1]
  }

  /** A place directly below the root, or directly below an Image that is there. */
  predicate NearRoot(outer: seq<Name>) {
    |outer| == 1 || (|outer| == 2 && outer[1] == Image)
  }

  /** Whether the parser lets an element with this name in below these. */
  predicate Admits(outer: seq<Name>, n: Name) {
    && (outer == [] ==> n == Xisf)
    && (n == Image ==> |outer| == 1)
    && (n == Table || n == Thumbnail ==> NearRoot(outer))
    && (n == Structure ==> outer != [] && (|outer| == 1 || Top(outer) == Table))
    && (n == Row ==> outer != [] && Top(outer) == Table && Row !in outer)
    && (n == Cell ==> outer != [] && Top(outer) == Row && Cell !in outer)
    && (n == Data ==> Data !in outer)
  }

  predicate Placed(s: seq<Name>, j: int)
    requires 0 <= j < |s|
  {
    && (j == 0 ==> s[j] == Xisf)
    && (s[j] == Table || s[j] == Thumbnail ==> j == 1 || (j == 2 && s[1] == Image))
    && (s[j] == Image ==> j == 1)
    && (s[j] == Structure ==> j == 1 || (j > 1 && s[j - 1] == Table))
    && (s[j] == Row ==> j > 0 && s[j - 1] == Table)
    && (s[j] == Cell ==> j > 0 && s[j - 1] == Row)
  }

  predicate Once(s: seq<Name>) {
    forall i, j | 0 <= i < j < |s| :: Tracked(s[i]) ==> s[i] != s[j]
  }

  predicate GoodStack(s: seq<Name>) {
    Once(s) && forall j | 0 <= j < |s| :: Placed(s, j)
  }

  /** Below an admitted element of a tracked kind there is no other of its kind. */
  lemma AdmittedIsNew(outer: seq<Name>, n: Name)
    requires GoodStack(outer) && Admits(outer, n) && Tracked(n)
    ensures n !in outer
  {
    forall j | 0 <= j < |outer|
      ensures outer[j] != n
    {
      assert Placed(outer, j) && Placed(outer, |outer| - 1);
    }
  }

  lemma PushKeeps(outer: seq<Name>, n: Name)
    requires GoodStack(outer) && Admits(outer, n)
    ensures GoodStack(outer + [n])
    ensures forall m :: m in outer + [n] <==> m in outer || m == n
    ensures Tracked(n) ==> n !in outer
    ensures n == Table || n == Thumbnail || n == Image ==> Row !in outer && Cell !in outer
  {
    if Tracked(n) {
      AdmittedIsNew(outer, n);
    }
    var s := outer + [n];
    forall j | 0 <= j < |s|
      ensures Placed(s, j)
    {
      if j < |outer| {
        assert Placed(outer, j);
      }
    }
    if n == Table || n == Thumbnail || n == Image {
      assert Placed(outer, 0);
    }
  }

  lemma PopKeeps(s: seq<Name>)
    requires GoodStack(s) && s != []
    ensures var rest := s[..|s| - 1];
            && GoodStack(rest)
            && (forall m | m != Top(s) :: m in rest <==> m in s)
            && (Tracked(Top(s)) ==> Top(s) !in rest)
            && (Top(s) == Table ==> Row !in s && Cell !in s)
            && (Top(s) == Row ==> Cell !in s)
  {
    var rest := s[..|s| - 1];
    assert s == rest + [Top(s)];
    forall j | 0 <= j < |rest|
      ensures Placed(rest, j)
    {
      assert Placed(s, j);
    }
    if Top(s) == Table || Top(s) == Row {
      NothingInside(s);
    }
  }

  /** Rows stand directly inside the Table, cells directly inside the Row. */
  lemma NothingInside(s: seq<Name>)
    requires GoodStack(s) && s != []
    ensures Top(s) == Table ==> Row !in s && Cell !in s
    ensures Top(s) == Row ==> Cell !in s
  {
    var t := |s| - 1;
    forall j | 0 <= j < |s|
      ensures s[t] == Table ==> s[j] != Row
      ensures s[t] == Row ==> s[j] != Cell
    {
      assert Placed(s, j);
    }
    forall j | 0 <= j < |s|
      ensures s[t] == Table ==> s[j] != Cell
    {
      assert Placed(s, j);
    }
  }
}
