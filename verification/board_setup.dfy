/**
 * Board and reward setup (src/lib/board-setup.ts): the n-by-n board of
 * random values, sorted by value on large boards with large numbers, and
 * the choice of the reward image, preferring images not yet unlocked.
 */
module BoardSetup {
  import opened GameTypes
  import opened GameHelpers
  import opened Decimal

  /** Large boards with large numbers are sorted to make values easier to find. */
  predicate SortsBoard(boardSize: int, maxNumber: int) {
    boardSize > 6 && maxNumber > 12
  }

  function SquareCount(boardSize: int): (n: nat)
    ensures n == boardSize * boardSize
  {
    var m: nat := if boardSize < 0 then -boardSize else boardSize;
    assert m * m == boardSize * boardSize;
    m * m
  }

  /**
   * The board before sorting: square `i` has id `i`, the value of the
   * `i`-th `randomInt(1, maxNumber)` call (whose draw is `draw(i)`), and is
   * hidden.
   */
  function FreshBoard(boardSize: int, maxNumber: int, draw: nat -> nat): (b: seq<Square>)
    ensures |b| == boardSize * boardSize
    ensures forall i :: 0 <= i < |b| ==>
      b[i].id == i && !b[i].revealed && b[i].value == RandomInt(1, maxNumber, draw(i))
  {
    seq(SquareCount(boardSize), i requires 0 <= i < SquareCount(boardSize) =>
      Square(i, RandomInt(1, maxNumber, draw(i)), false))
  }

  predicate SortedByValue(s: seq<Square>) {
    forall i, j :: 0 <= i < j < |s| ==> s[i].value <= s[j].value
  }

  /** Ascending by value, and by id among equal values. */
  predicate SortedByValueThenId(s: seq<Square>) {
    forall i, j :: 0 <= i < j < |s| ==>
      s[i].value < s[j].value || (s[i].value == s[j].value && s[i].id < s[j].id)
  }

  /**
   * Insert `x` into a list sorted by value, after every square whose value
   * is not greater (so equal values keep their order).
   */
  function Insert(sorted: seq<Square>, x: Square): seq<Square> {
    if |sorted| == 0 then [x]
    else if sorted[|sorted| - 1].value > x.value then
      Insert(sorted[..|sorted| - 1], x) + [sorted[|sorted| - 1]]
    else sorted + [x]
  }

  /**
   * `board.sort((a, b) => a.value - b.value)`. JavaScript's sort is stable,
   * so its result is the stable sort by value, computed here by insertion.
   * It reorders the squares and loses or adds none; that it sorts, and
   * stably, is `SortSorted` and `SortStable`.
   */
  function SortByValue(s: seq<Square>): (r: seq<Square>)
    ensures multiset(r) == multiset(s)
    ensures |r| == |s|
  {
    if |s| == 0 then []
    else
      var init, last := s[..|s| - 1], s[|s| - 1];
      InsertPermutes(SortByValue(init), last);
      assert s == init + [last];
      assert |multiset(Insert(SortByValue(init), last))| == |Insert(SortByValue(init), last)|;
      Insert(SortByValue(init), last)
  }

  lemma {:induction false} InsertPermutes(sorted: seq<Square>, x: Square)
    ensures multiset(Insert(sorted, x)) == multiset(sorted) + multiset{x}
  {
    if |sorted| > 0 && sorted[|sorted| - 1].value > x.value {
      var init := sorted[..|sorted| - 1];
      InsertPermutes(init, x);
      assert sorted == init + [sorted[|sorted| - 1]];
    }
  }

  lemma {:induction false} InsertSorted(sorted: seq<Square>, x: Square)
    requires SortedByValue(sorted)
    ensures SortedByValue(Insert(sorted, x))
  {
    if |sorted| > 0 && sorted[|sorted| - 1].value > x.value {
      var init := sorted[..|sorted| - 1];
      InsertSorted(init, x);
      InsertPermutes(init, x);
      var r := Insert(init, x);
      forall k | 0 <= k < |r| ensures r[k].value <= sorted[|sorted| - 1].value {
        assert r[k] in multiset(r);
      }
    }
  }

  lemma {:induction false} InsertStable(sorted: seq<Square>, x: Square)
    requires SortedByValueThenId(sorted)
    requires forall k :: 0 <= k < |sorted| ==> sorted[k].id < x.id
    ensures SortedByValueThenId(Insert(sorted, x))
  {
    if |sorted| > 0 && sorted[|sorted| - 1].value > x.value {
      var init := sorted[..|sorted| - 1];
      var last := sorted[|sorted| - 1];
      InsertStable(init, x);
      InsertPermutes(init, x);
      var r := Insert(init, x);
      forall k | 0 <= k < |r|
        ensures r[k].value < last.value || (r[k].value == last.value && r[k].id < last.id)
      {
        assert r[k] in multiset(r);
        if r[k] != x {
          assert r[k] in init;
        }
      }
    }
  }

  lemma {:induction false} SortSorted(s: seq<Square>)
    ensures SortedByValue(SortByValue(s))
  {
    if |s| > 0 {
      SortSorted(s[..|s| - 1]);
      InsertSorted(SortByValue(s[..|s| - 1]), s[|s| - 1]);
    }
  }

  /** On a list with increasing ids the sort is stable: equal values stay in id order. */
  lemma {:induction false} SortStable(s: seq<Square>)
    requires forall i, j :: 0 <= i < j < |s| ==> s[i].id < s[j].id
    ensures SortedByValueThenId(SortByValue(s))
  {
    if |s| > 0 {
      var init := s[..|s| - 1];
      SortStable(init);
      var sorted := SortByValue(init);
      forall k | 0 <= k < |sorted| ensures sorted[k].id < s[|s| - 1].id {
        assert sorted[k] in multiset(sorted);
      }
      InsertStable(sorted, s[|s| - 1]);
    }
  }

  /** The ids of the squares. */
  function IdSet(s: seq<Square>): set<int> {
    set sq | sq in s :: sq.id
  }

  lemma SameElementsSameIds(a: seq<Square>, b: seq<Square>)
    requires multiset(a) == multiset(b)
    ensures IdSet(a) == IdSet(b)
    ensures forall sq :: sq in a <==> sq in b
  {
    forall sq ensures sq in a <==> sq in b {
      assert sq in a <==> sq in multiset(a);
      assert sq in b <==> sq in multiset(b);
    }
  }

  /** The ids of the squares are exactly `0 .. n - 1`. */
  predicate IdsAreRange(b: seq<Square>, n: int) {
    && (forall i :: 0 <= i < n ==> i in IdSet(b))
    && (forall id :: id in IdSet(b) ==> 0 <= id < n)
  }

  /** No two squares share an id. */
  predicate DistinctIds(s: seq<Square>) {
    forall i, j :: 0 <= i < j < |s| ==> s[i].id != s[j].id
  }

  /** With distinct ids no square occurs twice. */
  lemma {:induction false} DistinctIdsOccurOnce(s: seq<Square>, x: Square)
    requires DistinctIds(s)
    ensures multiset(s)[x] <= 1
  {
    if |s| > 0 {
      var init, last := s[..|s| - 1], s[|s| - 1];
      assert s == init + [last];
      DistinctIdsOccurOnce(init, x);
      if last == x {
        forall k | 0 <= k < |init| ensures init[k] != x {
          assert init[k] == s[k];
        }
      }
    }
  }

  /** A square at two positions occurs twice. */
  lemma TwoPositionsOccurTwice(s: seq<Square>, i: int, j: int)
    requires 0 <= i < j < |s| && s[i] == s[j]
    ensures multiset(s)[s[i]] >= 2
  {
    assert s == s[..j] + s[j..];
    assert s[i] in s[..j];
    assert s[j] in s[j..];
  }

  /** A permutation of a board with distinct ids has distinct ids. */
  lemma DistinctIdsPermuted(a: seq<Square>, b: seq<Square>)
    requires multiset(a) == multiset(b) && DistinctIds(a)
    ensures DistinctIds(b)
  {
    forall i, j | 0 <= i < j < |b| ensures b[i].id != b[j].id {
      if b[i] == b[j] {
        TwoPositionsOccurTwice(b, i, j);
        DistinctIdsOccurOnce(a, b[i]);
        assert false;
      } else {
        assert b[i] in multiset(a) && b[j] in multiset(a);
        var p :| 0 <= p < |a| && a[p] == b[i];
        var q :| 0 <= q < |a| && a[q] == b[j];
        assert p != q;
      }
    }
  }

  /**
   * `createBoard`: the unsorted board, sorted by value when the board is
   * large and its numbers are large.
   */
  function Board(boardSize: int, maxNumber: int, draw: nat -> nat): (b: seq<Square>)
    ensures |b| == boardSize * boardSize
    ensures multiset(b) == multiset(FreshBoard(boardSize, maxNumber, draw))
  {
    var unsorted := FreshBoard(boardSize, maxNumber, draw);
    if SortsBoard(boardSize, maxNumber) then SortByValue(unsorted) else unsorted
  }

  /** Sorting keeps the length, the squares and so the ids. */
  lemma SortKeepsSquares(s: seq<Square>)
    ensures |SortByValue(s)| == |s|
    ensures multiset(SortByValue(s)) == multiset(s)
    ensures forall sq :: sq in SortByValue(s) <==> sq in s
    ensures IdSet(SortByValue(s)) == IdSet(s)
  {
    SameElementsSameIds(SortByValue(s), s);
  }

  /**
   * What `createBoard` promises: `boardSize * boardSize` hidden squares
   * whose ids are exactly `0 .. n - 1`, each once, with values in `[1, maxNumber]`
   * (for `maxNumber >= 1`); square `i` has id `i` unless the board is
   * sorted, in which case it is ascending by value (ties in id order) and a
   * permutation of the unsorted board.
   */
  lemma BoardProperties(boardSize: int, maxNumber: int, draw: nat -> nat)
    ensures |Board(boardSize, maxNumber, draw)| == boardSize * boardSize
    ensures forall sq :: sq in Board(boardSize, maxNumber, draw) ==> !sq.revealed
    ensures maxNumber >= 1 ==>
      forall sq :: sq in Board(boardSize, maxNumber, draw) ==> 1 <= sq.value <= maxNumber
    ensures IdsAreRange(Board(boardSize, maxNumber, draw), boardSize * boardSize)
    ensures DistinctIds(Board(boardSize, maxNumber, draw))
    ensures !SortsBoard(boardSize, maxNumber) ==>
      forall i :: 0 <= i < |Board(boardSize, maxNumber, draw)| ==> Board(boardSize, maxNumber, draw)[i].id == i
    ensures SortsBoard(boardSize, maxNumber) ==>
      && SortedByValueThenId(Board(boardSize, maxNumber, draw))
      && multiset(Board(boardSize, maxNumber, draw)) == multiset(FreshBoard(boardSize, maxNumber, draw))
  {
    var unsorted := FreshBoard(boardSize, maxNumber, draw);
    var n := |unsorted|;
    forall i | 0 <= i < n ensures i in IdSet(unsorted) {
      assert unsorted[i] in unsorted;
    }
    if SortsBoard(boardSize, maxNumber) {
      SortKeepsSquares(unsorted);
      SortStable(unsorted);
      DistinctIdsPermuted(unsorted, SortByValue(unsorted));
    }
  }

  /**
   * Where insertion puts `x`: after the prefix `s[..j]`, when every square
   * from `j` on is greater and the one before `j` is not.
   */
  lemma {:induction false} InsertAt(s: seq<Square>, x: Square, j: int)
    requires 0 <= j <= |s|
    requires j == 0 || s[j - 1].value <= x.value
    requires forall k :: j <= k < |s| ==> s[k].value > x.value
    ensures Insert(s, x) == s[..j] + [x] + s[j..]
    decreases |s|
  {
    if |s| > j {
      var init := s[..|s| - 1];
      InsertAt(init, x, j);
      assert init[..j] == s[..j];
      assert init[j..] + [s[|s| - 1]] == s[j..];
    } else {
      assert s[..j] == s;
    }
  }

  /** Moves the square at index `i` left past every square of greater value. */
  method InsertLast(a: array<Square>, i: int)
    requires 0 <= i < a.Length
    modifies a
    ensures a[..i + 1] == Insert(old(a[..i]), old(a[i]))
    ensures a[i + 1..] == old(a[i + 1..])
  {
    ghost var s := a[..i];
    var key := a[i];
    var j := i;
    while j > 0 && a[j - 1].value > key.value
      invariant 0 <= j <= i
      invariant a[j] == key
      invariant forall k :: 0 <= k < j ==> a[k] == s[k]
      invariant forall k :: j < k <= i ==> a[k] == s[k - 1]
      invariant forall k :: i < k < a.Length ==> a[k] == old(a[k])
      invariant forall k :: j <= k < i ==> s[k].value > key.value
    {
      a[j - 1], a[j] := a[j], a[j - 1];
      j := j - 1;
    }
    InsertAt(s, key, j);
    assert a[..i + 1] == s[..j] + [key] + s[j..];
  }

  /** The in-place sort of `createBoard`, stable and ascending by value. */
  method SortByValueInPlace(a: array<Square>)
    modifies a
    ensures a[..] == SortByValue(old(a[..]))
  {
    ghost var s := a[..];
    var i := 0;
    while i < a.Length
      invariant 0 <= i <= a.Length
      invariant a[..i] == SortByValue(s[..i])
      invariant a[i..] == s[i..]
    {
      ghost var rest := a[i..];
      assert a[i] == s[i] by { assert rest[0] == a[i] && s[i..][0] == s[i]; }
      InsertLast(a, i);
      assert a[i + 1..] == s[i + 1..] by { assert rest[1..] == s[i + 1..]; }
      SortByValueStep(s, i);
      i := i + 1;
    }
    assert a[..] == a[..a.Length];
    assert s == s[..a.Length];
  }

  /** Sorting one more square inserts it into the sorted prefix. */
  lemma SortByValueStep(s: seq<Square>, i: int)
    requires 0 <= i < |s|
    ensures SortByValue(s[..i + 1]) == Insert(SortByValue(s[..i]), s[i])
  {
    var t := s[..i + 1];
    assert t[..|t| - 1] == s[..i] && t[|t| - 1] == s[i];
  }

  /** `createBoard`, building the array and then sorting it in place. */
  method CreateBoard(boardSize: int, maxNumber: int, draw: nat -> nat) returns (board: array<Square>)
    ensures fresh(board)
    ensures board[..] == Board(boardSize, maxNumber, draw)
  {
    var n := SquareCount(boardSize);
    board := new Square[n](i => Square(i, RandomInt(1, maxNumber, draw(i)), false));
    assert board[..] == FreshBoard(boardSize, maxNumber, draw);
    assert (boardSize > 6 && maxNumber > 12) == SortsBoard(boardSize, maxNumber);
    if boardSize > 6 && maxNumber > 12 {
      SortByValueInPlace(board);
    }
  }

  /** The reward image: its number and the path of its picture. */
  datatype BackgroundImage = BackgroundImage(imageNumber: int, imageUrl: string)

  /** `/assets/<n>.png`. */
  function ImageUrl(n: int): string {
    "/assets/" + IntToString(n) + ".png"
  }

  /** Distinct images have distinct paths. */
  lemma ImageUrlInjective(a: int, b: int)
    requires ImageUrl(a) == ImageUrl(b)
    ensures a == b
  {
    var ua, ub := ImageUrl(a), ImageUrl(b);
    assert ua[8..|ua| - 4] == IntToString(a);
    assert ub[8..|ub| - 4] == IntToString(b);
    IntToStringRoundTrip(a);
    IntToStringRoundTrip(b);
  }

  /** The catalogue's images that are not unlocked, in catalogue order. */
  function Unseen(allRewardImages: seq<int>, unlockedImages: seq<int>): (r: seq<int>)
    ensures forall k :: 0 <= k < |r| ==> r[k] in allRewardImages && r[k] !in unlockedImages
  {
    if |allRewardImages| == 0 then []
    else
      (if allRewardImages[0] in unlockedImages then [] else [allRewardImages[0]])
      + Unseen(allRewardImages[1..], unlockedImages)
  }

  /** No image of the catalogue that is still locked is left out. */
  lemma {:induction false} UnseenComplete(allRewardImages: seq<int>, unlockedImages: seq<int>, n: int)
    requires n in allRewardImages && n !in unlockedImages
    ensures n in Unseen(allRewardImages, unlockedImages)
  {
    if allRewardImages[0] != n {
      UnseenComplete(allRewardImages[1..], unlockedImages, n);
    }
  }

  /** Some image is unseen exactly when some catalogue image is not unlocked. */
  lemma {:induction false} UnseenNonEmpty(allRewardImages: seq<int>, unlockedImages: seq<int>)
    ensures (exists n :: n in allRewardImages && n !in unlockedImages) ==>
      |Unseen(allRewardImages, unlockedImages)| > 0
    ensures |Unseen(allRewardImages, unlockedImages)| > 0 ==>
      exists n :: n in allRewardImages && n !in unlockedImages
  {
    var unseenImages := Unseen(allRewardImages, unlockedImages);
    if exists n :: n in allRewardImages && n !in unlockedImages {
      var n :| n in allRewardImages && n !in unlockedImages;
      UnseenComplete(allRewardImages, unlockedImages, n);
    }
    if |unseenImages| > 0 {
      var m := unseenImages[0];
      assert m in allRewardImages && m !in unlockedImages;
    }
  }

  /**
   * `selectBackgroundImage`: a random unseen image when there is one,
   * otherwise a random image of the whole catalogue, and 1 when the
   * catalogue is empty.
   */
  function SelectBackgroundImage(unlockedImages: seq<int>, allRewardImages: seq<int>,
                                 draw: nat): (r: BackgroundImage)
    ensures (exists n :: n in allRewardImages && n !in unlockedImages) ==>
      r.imageNumber in allRewardImages && r.imageNumber !in unlockedImages
    ensures |allRewardImages| > 0 ==> r.imageNumber in allRewardImages
    ensures |allRewardImages| == 0 ==> r.imageNumber == 1
    ensures r.imageUrl == ImageUrl(r.imageNumber)
  {
    var unseenImages := Unseen(allRewardImages, unlockedImages);
    UnseenNonEmpty(allRewardImages, unlockedImages);
    var availableImages := if |unseenImages| > 0 then unseenImages else allRewardImages;
    var i := RandomInt(0, |availableImages| - 1, draw);
    var chosenNumber := if 0 <= i < |availableImages| then availableImages[i] else 1;
    BackgroundImage(chosenNumber, ImageUrl(chosenNumber))
  }

  /** While some image is unseen, the draw indexes the unseen images. */
  lemma SelectBackgroundImagePicksUnseen(unlockedImages: seq<int>, allRewardImages: seq<int>, draw: nat)
    requires |Unseen(allRewardImages, unlockedImages)| > 0
    ensures var unseenImages := Unseen(allRewardImages, unlockedImages);
      SelectBackgroundImage(unlockedImages, allRewardImages, draw).imageNumber
      == unseenImages[RandomInt(0, |unseenImages| - 1, draw)]
  {
    var unseenImages := Unseen(allRewardImages, unlockedImages);
    var i := RandomInt(0, |unseenImages| - 1, draw);
    assert SelectBackgroundImage(unlockedImages, allRewardImages, draw).imageNumber == unseenImages[i];
  }

  /** Once no image is unseen, the draw indexes the whole catalogue. */
  lemma SelectBackgroundImagePicksAny(unlockedImages: seq<int>, allRewardImages: seq<int>, draw: nat)
    requires |Unseen(allRewardImages, unlockedImages)| == 0 && |allRewardImages| > 0
    ensures SelectBackgroundImage(unlockedImages, allRewardImages, draw).imageNumber
      == allRewardImages[RandomInt(0, |allRewardImages| - 1, draw)]
  {
    var i := RandomInt(0, |allRewardImages| - 1, draw);
    assert SelectBackgroundImage(unlockedImages, allRewardImages, draw).imageNumber == allRewardImages[i];
  }

  /** Each unseen image is chosen by some draw. */
  lemma SelectBackgroundImageCoversUnseen(unlockedImages: seq<int>, allRewardImages: seq<int>, n: int)
    requires n in allRewardImages && n !in unlockedImages
    ensures exists draw: nat :: SelectBackgroundImage(unlockedImages, allRewardImages, draw).imageNumber == n
  {
    var unseenImages := Unseen(allRewardImages, unlockedImages);
    UnseenComplete(allRewardImages, unlockedImages, n);
    var i: nat :| i < |unseenImages| && unseenImages[i] == n;
    RandomIntCovers(0, |unseenImages| - 1, i);
    SelectBackgroundImagePicksUnseen(unlockedImages, allRewardImages, i);
  }

  /** When every image is unlocked, each catalogue image is chosen by some draw. */
  lemma SelectBackgroundImageRecycles(unlockedImages: seq<int>, allRewardImages: seq<int>, n: int)
    requires n in allRewardImages
    requires forall m :: m in allRewardImages ==> m in unlockedImages
    ensures exists draw: nat :: SelectBackgroundImage(unlockedImages, allRewardImages, draw).imageNumber == n
  {
    UnseenNonEmpty(allRewardImages, unlockedImages);
    var i: nat :| i < |allRewardImages| && allRewardImages[i] == n;
    RandomIntCovers(0, |allRewardImages| - 1, i);
    SelectBackgroundImagePicksAny(unlockedImages, allRewardImages, i);
  }
}
