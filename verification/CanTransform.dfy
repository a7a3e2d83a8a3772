// Teaser::canTransform of leetcode/leetcodecpp.cpp decides reachability in a
// string rewriting system over the letters L, R and X without searching.

module CanTransform {
  import opened Sequences

  ghost predicate OverLRX(s: string) {
    forall i :: 0 <= i < |s| ==> s[i] in {'L', 'R', 'X'}
  }

  // One move: XL becomes LX, or RX becomes XR.
  ghost predicate CanMoveAt(s: string, i: nat) {
    i + 1 < |s| && ((s[i] == 'X' && s[i + 1] == 'L') || (s[i] == 'R' && s[i + 1] == 'X'))
  }

  ghost function Moved(s: string, i: nat): string
    requires i + 1 < |s|
  {
    s[i := s[i + 1]][i + 1 := s[i]]
  }

  ghost predicate Reaches(s: string, t: string, moves: nat)
    decreases moves
  {
    if moves == 0 then s == t
    else exists i: nat :: CanMoveAt(s, i) && Reaches(Moved(s, i), t, moves - 1)
  }

  ghost predicate Reachable(s: string, t: string) {
    exists moves: nat :: Reaches(s, t, moves)
  }

  ghost predicate IsPiece(s: string, i: nat) {
    i < |s| && s[i] != 'X'
  }

  // The positions of the pieces, the letters other than X.
  ghost predicate Pieces(s: string, p: seq<nat>) {
    && Ascending(p)
    && (forall k {:trigger p[k]} :: 0 <= k < |p| ==> IsPiece(s, p[k]))
    && (forall i {:trigger IsPiece(s, i)} :: IsPiece(s, i) ==> i in p)
  }

  // An L may only go left, an R only right.
  ghost predicate MayGo(piece: char, from: nat, to: nat) {
    && (piece == 'L' ==> to <= from)
    && (piece == 'R' ==> from <= to)
  }

  // Pieces in the same order, each able to go to its target.
  ghost predicate InReach(s: string, p: seq<nat>, t: string, q: seq<nat>)
    requires Pieces(s, p) && Pieces(t, q)
  {
    && |p| == |q|
    && forall k {:trigger MayGo(s[p[k]], p[k], q[k])} ::
         0 <= k < |p| ==> s[p[k]] == t[q[k]] && MayGo(s[p[k]], p[k], q[k])
  }

  lemma {:induction false} PiecesExist(s: string) returns (p: seq<nat>)
    ensures Pieces(s, p)
  {
    if s == [] {
      p := [];
    } else {
      var n := |s| - 1;
      p := PiecesExist(s[..n]);
      ghost var before := p;
      if s[n] != 'X' { p := p + [n]; }
      forall i: nat | IsPiece(s, i) ensures i in p {
        assert i < n ==> IsPiece(s[..n], i);
      }
      forall k | 0 <= k < |p| ensures IsPiece(s, p[k]) {
        assert k < |before| ==> IsPiece(s[..n], before[k]);
      }
    }
  }

  lemma PiecesUnique(s: string, p: seq<nat>, q: seq<nat>)
    requires Pieces(s, p) && Pieces(s, q)
    ensures p == q
  {
    SameMembersSameList(p, q);
  }

  // The piece that a move at i shifts, and its new position.
  ghost function From(s: string, i: nat): nat requires CanMoveAt(s, i) { if s[i] == 'R' then i else i + 1 }
  ghost function To(s: string, i: nat): nat requires CanMoveAt(s, i) { if s[i] == 'R' then i + 1 else i }

  lemma PieceAt(s: string, i: nat, p: seq<nat>) returns (k: nat)
    requires CanMoveAt(s, i) && Pieces(s, p)
    ensures k < |p| && p[k] == From(s, i)
  {
    assert IsPiece(s, From(s, i));
    k :| 0 <= k < |p| && p[k] == From(s, i);
  }

  // No other piece is at either of the two places.
  lemma OthersElsewhere(s: string, i: nat, p: seq<nat>, k: nat, m: nat)
    requires CanMoveAt(s, i) && Pieces(s, p) && k < |p| && p[k] == From(s, i) && m < |p| && m != k
    ensures p[m] != From(s, i) && p[m] != To(s, i)
    ensures p[m] < p[k] <==> m < k
    ensures Moved(s, i)[p[m]] == s[p[m]]
  {
    assert IsPiece(s, p[m]);
    assert if m < k then p[m] < p[k] else p[k] < p[m];
  }

  // A move shifts one piece to a neighbouring free position.
  lemma MovedPieces(s: string, i: nat, p: seq<nat>, k: nat)
    requires CanMoveAt(s, i) && Pieces(s, p) && k < |p| && p[k] == From(s, i)
    ensures Pieces(Moved(s, i), p[k := To(s, i)])
  {
    var s', p' := Moved(s, i), p[k := To(s, i)];
    forall a, b | 0 <= a < b < |p'| ensures p'[a] < p'[b] {
      assert p[a] < p[b];
      if a == k { OthersElsewhere(s, i, p, k, b); } else { OthersElsewhere(s, i, p, k, a); }
    }
    forall m | 0 <= m < |p'| ensures IsPiece(s', p'[m]) {
      if m != k { OthersElsewhere(s, i, p, k, m); assert IsPiece(s, p[m]); }
    }
    forall x: nat | IsPiece(s', x) ensures x in p' {
      if x == To(s, i) {
        assert p'[k] == x;
      } else {
        assert IsPiece(s, x);
        var m :| 0 <= m < |p| && p[m] == x;
        assert p'[m] == x;
      }
    }
  }

  // Moves never leave the reach of the start.
  lemma {:induction false} OnlyInReach(s: string, t: string, moves: nat, p: seq<nat>, q: seq<nat>)
    requires OverLRX(s) && Reaches(s, t, moves) && Pieces(s, p) && Pieces(t, q)
    ensures |s| == |t| && InReach(s, p, t, q)
    decreases moves
  {
    if moves == 0 {
      PiecesUnique(s, p, q);
    } else {
      var i: nat :| CanMoveAt(s, i) && Reaches(Moved(s, i), t, moves - 1);
      var k := PieceAt(s, i, p);
      MovedPieces(s, i, p, k);
      OnlyInReach(Moved(s, i), t, moves - 1, p[k := To(s, i)], q);
      BeforeMove(s, t, p, q, i, k);
    }
  }

  // A move of piece k towards its target, seen from either side.
  lemma BeforeMove(s: string, t: string, p: seq<nat>, q: seq<nat>, i: nat, k: nat)
    requires OverLRX(s) && Pieces(s, p) && Pieces(t, q) && CanMoveAt(s, i) && k < |p| && p[k] == From(s, i)
    requires Pieces(Moved(s, i), p[k := To(s, i)]) && InReach(Moved(s, i), p[k := To(s, i)], t, q)
    ensures InReach(s, p, t, q)
  {
    var s', p' := Moved(s, i), p[k := To(s, i)];
    forall m | 0 <= m < |p| ensures s[p[m]] == t[q[m]] && MayGo(s[p[m]], p[m], q[m]) {
      assert MayGo(s'[p'[m]], p'[m], q[m]);
      if m != k { OthersElsewhere(s, i, p, k, m); }
    }
  }

  lemma AfterMove(s: string, t: string, p: seq<nat>, q: seq<nat>, i: nat, k: nat)
    requires Pieces(s, p) && Pieces(t, q) && CanMoveAt(s, i) && k < |p| && p[k] == From(s, i)
    requires InReach(s, p, t, q) && MayGo(s[p[k]], To(s, i), q[k])
    requires Pieces(Moved(s, i), p[k := To(s, i)])
    ensures InReach(Moved(s, i), p[k := To(s, i)], t, q)
  {
    var s', p' := Moved(s, i), p[k := To(s, i)];
    forall m | 0 <= m < |p'| ensures s'[p'[m]] == t[q[m]] && MayGo(s'[p'[m]], p'[m], q[m]) {
      assert MayGo(s[p[m]], p[m], q[m]);
      if m != k { OthersElsewhere(s, i, p, k, m); }
    }
  }

  ghost function Distance(p: seq<nat>, q: seq<nat>): nat
    requires |p| == |q|
  {
    if p == [] then 0
    else Distance(p[..|p| - 1], q[..|q| - 1]) + Gap(p[|p| - 1], q[|q| - 1])
  }

  ghost function Gap(a: nat, b: nat): nat { if a < b then b - a else a - b }

  lemma {:induction false} DistanceDrops(p: seq<nat>, q: seq<nat>, k: nat, x: nat)
    requires |p| == |q| && k < |p| && Gap(x, q[k]) < Gap(p[k], q[k])
    ensures Distance(p[k := x], q) < Distance(p, q)
  {
    var n := |p| - 1;
    if k == n {
      assert p[k := x][..n] == p[..n];
    } else {
      assert p[k := x][..n] == p[..n][k := x];
      DistanceDrops(p[..n], q[..n], k, x);
    }
  }

  // The leftmost L that still has to move left has a free place before it.
  lemma LeftMove(s: string, t: string, p: seq<nat>, q: seq<nat>, k: nat)
    requires OverLRX(s) && Pieces(s, p) && Pieces(t, q) && |s| == |t| && InReach(s, p, t, q)
    requires k < |p| && s[p[k]] == 'L' && q[k] < p[k]
    requires forall m :: 0 <= m < k && s[p[m]] == 'L' ==> q[m] == p[m]
    ensures CanMoveAt(s, p[k] - 1) && s[p[k] - 1] == 'X'
  {
    assert IsPiece(s, p[k]);
    forall m | 0 <= m < |p| ensures p[m] != p[k] - 1 {
      if m < k {
        assert MayGo(s[p[m]], p[m], q[m]);
        assert q[m] < q[k];
      }
    }
    assert p[k] - 1 >= 0 && !IsPiece(s, p[k] - 1);
  }

  // With every L in place, the rightmost R that still has to move right has a
  // free place after it.
  lemma RightMove(s: string, t: string, p: seq<nat>, q: seq<nat>, k: nat)
    requires OverLRX(s) && Pieces(s, p) && Pieces(t, q) && |s| == |t| && InReach(s, p, t, q)
    requires k < |p| && s[p[k]] == 'R' && p[k] < q[k]
    requires forall m :: k < m < |p| && s[p[m]] == 'R' ==> q[m] == p[m]
    requires forall m :: 0 <= m < |p| && s[p[m]] == 'L' ==> q[m] == p[m]
    ensures CanMoveAt(s, p[k]) && s[p[k] + 1] == 'X'
  {
    assert IsPiece(t, q[k]);
    forall m | 0 <= m < |p| ensures p[m] != p[k] + 1 {
      if k < m {
        assert q[k] < q[m];
      }
    }
    assert IsPiece(s, p[k]) && !IsPiece(s, p[k] + 1);
  }

  // If some piece is off its target, some useful move exists.
  lemma UsefulMove(s: string, t: string, p: seq<nat>, q: seq<nat>) returns (k: nat, i: nat)
    requires OverLRX(s) && Pieces(s, p) && Pieces(t, q) && |s| == |t| && InReach(s, p, t, q) && p != q
    ensures k < |p| && CanMoveAt(s, i) && p[k] == From(s, i) && Gap(To(s, i), q[k]) < Gap(p[k], q[k])
    ensures MayGo(s[p[k]], To(s, i), q[k])
  {
    var d :| 0 <= d < |p| && p[d] != q[d];
    assert forall m :: 0 <= m < |p| ==> IsPiece(s, p[m]);
    if l: nat :| l < |p| && Off(s, p, q, 'L', l) {
      k := LeftmostOff(s, p, q, l);
      i := LeftPiece(s, t, p, q, k);
    } else {
      assert Off(s, p, q, 'L', d) || Off(s, p, q, 'R', d);
      k := RightmostOff(s, p, q, d);
      assert forall m: nat :: m < |p| ==> !Off(s, p, q, 'L', m);
      i := RightPiece(s, t, p, q, k);
    }
  }

  // The m-th piece is of this kind and not yet in place.
  ghost predicate Off(s: string, p: seq<nat>, q: seq<nat>, piece: char, m: nat)
    requires m < |p| == |q| && p[m] < |s|
  {
    s[p[m]] == piece && q[m] != p[m]
  }

  lemma LeftmostOff(s: string, p: seq<nat>, q: seq<nat>, l: nat) returns (k: nat)
    requires |p| == |q| && (forall m :: 0 <= m < |p| ==> p[m] < |s|) && l < |p| && Off(s, p, q, 'L', l)
    ensures k < |p| && Off(s, p, q, 'L', k) && forall m :: 0 <= m < k ==> !Off(s, p, q, 'L', m)
  {
    k := 0;
    while !Off(s, p, q, 'L', k)
      invariant k <= l && forall m :: 0 <= m < k ==> !Off(s, p, q, 'L', m)
      decreases l - k
    {
      k := k + 1;
    }
  }

  lemma RightmostOff(s: string, p: seq<nat>, q: seq<nat>, r: nat) returns (k: nat)
    requires |p| == |q| && (forall m :: 0 <= m < |p| ==> p[m] < |s|) && r < |p| && Off(s, p, q, 'R', r)
    ensures k < |p| && Off(s, p, q, 'R', k) && forall m :: k < m < |p| ==> !Off(s, p, q, 'R', m)
  {
    k := |p| - 1;
    while !Off(s, p, q, 'R', k)
      invariant r <= k < |p| && forall m :: k < m < |p| ==> !Off(s, p, q, 'R', m)
      decreases k
    {
      k := k - 1;
    }
  }

  lemma LeftPiece(s: string, t: string, p: seq<nat>, q: seq<nat>, k: nat) returns (i: nat)
    requires OverLRX(s) && Pieces(s, p) && Pieces(t, q) && |s| == |t| && InReach(s, p, t, q)
    requires (forall m :: 0 <= m < |p| ==> p[m] < |s|) && k < |p| && Off(s, p, q, 'L', k)
    requires forall m :: 0 <= m < k ==> !Off(s, p, q, 'L', m)
    ensures CanMoveAt(s, i) && p[k] == From(s, i) && Gap(To(s, i), q[k]) < Gap(p[k], q[k])
    ensures MayGo(s[p[k]], To(s, i), q[k])
  {
    assert MayGo(s[p[k]], p[k], q[k]);
    forall m | 0 <= m < k && s[p[m]] == 'L' ensures q[m] == p[m] { assert !Off(s, p, q, 'L', m); }
    LeftMove(s, t, p, q, k);
    i := p[k] - 1;
  }

  lemma RightPiece(s: string, t: string, p: seq<nat>, q: seq<nat>, k: nat) returns (i: nat)
    requires OverLRX(s) && Pieces(s, p) && Pieces(t, q) && |s| == |t| && InReach(s, p, t, q)
    requires (forall m :: 0 <= m < |p| ==> p[m] < |s|) && k < |p| && Off(s, p, q, 'R', k)
    requires forall m :: k < m < |p| ==> !Off(s, p, q, 'R', m)
    requires forall m :: 0 <= m < |p| ==> !Off(s, p, q, 'L', m)
    ensures CanMoveAt(s, i) && p[k] == From(s, i) && Gap(To(s, i), q[k]) < Gap(p[k], q[k])
    ensures MayGo(s[p[k]], To(s, i), q[k])
  {
    assert MayGo(s[p[k]], p[k], q[k]);
    forall m | k < m < |p| && s[p[m]] == 'R' ensures q[m] == p[m] { assert !Off(s, p, q, 'R', m); }
    forall m | 0 <= m < |p| && s[p[m]] == 'L' ensures q[m] == p[m] { assert !Off(s, p, q, 'L', m); }
    RightMove(s, t, p, q, k);
    i := p[k];
  }

  lemma SamePiecesSameString(s: string, t: string, p: seq<nat>)
    requires Pieces(s, p) && Pieces(t, p) && |s| == |t|
    requires forall k :: 0 <= k < |p| ==> s[p[k]] == t[p[k]]
    ensures s == t
  {
    forall i: nat | i < |s| ensures s[i] == t[i] {
      if IsPiece(s, i) || IsPiece(t, i) {
        var k :| 0 <= k < |p| && p[k] == i;
      }
    }
  }

  // A move that keeps the target in reach and brings the pieces nearer to it.
  lemma NearerMove(s: string, t: string, p: seq<nat>, q: seq<nat>) returns (i: nat, p': seq<nat>)
    requires OverLRX(s) && Pieces(s, p) && Pieces(t, q) && |s| == |t| && InReach(s, p, t, q) && p != q
    ensures CanMoveAt(s, i) && OverLRX(Moved(s, i)) && |Moved(s, i)| == |t|
    ensures Pieces(Moved(s, i), p') && InReach(Moved(s, i), p', t, q) && Distance(p', q) < Distance(p, q)
  {
    var k;
    k, i := UsefulMove(s, t, p, q);
    p' := p[k := To(s, i)];
    MovedPieces(s, i, p, k);
    DistanceDrops(p, q, k, To(s, i));
    AfterMove(s, t, p, q, i, k);
  }

  // Everything in reach is reached, by a sequence of moves built here.
  lemma {:induction false} AllInReach(s: string, t: string, p: seq<nat>, q: seq<nat>) returns (moves: nat)
    requires OverLRX(s) && Pieces(s, p) && Pieces(t, q) && |s| == |t| && InReach(s, p, t, q)
    ensures Reaches(s, t, moves)
    decreases Distance(p, q)
  {
    if p == q {
      forall k | 0 <= k < |p| ensures s[p[k]] == t[p[k]] { assert MayGo(s[p[k]], p[k], q[k]); }
      SamePiecesSameString(s, t, p);
      moves := 0;
    } else {
      var i, p' := NearerMove(s, t, p, q);
      moves := AllInReach(Moved(s, i), t, p', q);
      moves := moves + 1;
    }
  }

  lemma ReachableIffInReach(s: string, t: string, p: seq<nat>, q: seq<nat>)
    requires OverLRX(s) && Pieces(s, p) && Pieces(t, q)
    ensures Reachable(s, t) <==> |s| == |t| && InReach(s, p, t, q)
  {
    if Reachable(s, t) {
      var moves: nat :| Reaches(s, t, moves);
      OnlyInReach(s, t, moves, p, q);
    }
    if |s| == |t| && InReach(s, p, t, q) {
      var moves := AllInReach(s, t, p, q);
    }
  }

  // The lambda skipX: the first position from pos on that is not X, or -1.
  method SkipX(s: string, pos: nat) returns (i: int)
    requires pos <= |s|
    ensures i == -1 ==> forall k :: pos <= k < |s| ==> s[k] == 'X'
    ensures i != -1 ==> pos <= i < |s| && s[i] != 'X' && forall k :: pos <= k < i ==> s[k] == 'X'
  {
    i := pos;
    while i < |s|
      invariant pos <= i <= |s|
      invariant forall k :: pos <= k < i ==> s[k] == 'X'
    {
      if s[i] != 'X' {
        return;
      }
      i := i + 1;
    }
    i := -1;
  }

  // The k-th piece, or -1.
  ghost function PieceOrEnd(p: seq<nat>, k: nat): int {
    if k < |p| then p[k] else -1
  }

  // Skipping X from just after the previous piece finds the next one.
  lemma SkippedTo(s: string, p: seq<nat>, k: nat, pos: nat, i: int)
    requires Pieces(s, p) && k <= |p| && pos == (if k == 0 then 0 else p[k - 1] + 1)
    requires i == -1 ==> forall x :: pos <= x < |s| ==> s[x] == 'X'
    requires i != -1 ==> pos <= i < |s| && s[i] != 'X' && forall x :: pos <= x < i ==> s[x] == 'X'
    ensures i == PieceOrEnd(p, k)
    ensures k < |p| ==> i >= 0
  {
    if k < |p| {
      assert IsPiece(s, p[k]) && pos <= p[k];
    }
    if i != -1 {
      assert IsPiece(s, i);
      var m :| 0 <= m < |p| && p[m] == i;
      if k > 0 { OrderOf(p, m, k - 1); }
      if k < |p| { OrderOf(p, k, m); }
    }
  }

  // What the loop has checked so far.
  ghost predicate Checked(s: string, p: seq<nat>, t: string, q: seq<nat>, k: nat)
    requires Pieces(s, p) && Pieces(t, q) && k <= |p| && k <= |q|
  {
    forall m {:trigger MayGo(s[p[m]], p[m], q[m])} :: 0 <= m < k ==> s[p[m]] == t[q[m]] && MayGo(s[p[m]], p[m], q[m])
  }

  lemma CheckOne(s: string, p: seq<nat>, t: string, q: seq<nat>, k: nat)
    requires Pieces(s, p) && Pieces(t, q) && k < |p| && k < |q|
    ensures InReach(s, p, t, q) ==> s[p[k]] == t[q[k]] && MayGo(s[p[k]], p[k], q[k])
    ensures Checked(s, p, t, q, k) && s[p[k]] == t[q[k]] && MayGo(s[p[k]], p[k], q[k]) ==> Checked(s, p, t, q, k + 1)
  {
    var fits := MayGo(s[p[k]], p[k], q[k]);
    if Checked(s, p, t, q, k) && s[p[k]] == t[q[k]] && fits {
      forall m | 0 <= m < k + 1 ensures s[p[m]] == t[q[m]] && MayGo(s[p[m]], p[m], q[m]) {
        if m < k { assert MayGo(s[p[m]], p[m], q[m]); }
      }
    }
  }

  method CanTransform(start: string, end: string) returns (yes: bool)
    requires OverLRX(start) && OverLRX(end)
    ensures yes <==> Reachable(start, end)
  {
    ghost var p := PiecesExist(start);
    ghost var q := PiecesExist(end);
    ReachableIffInReach(start, end, p, q);
    if |start| != |end| {
      return false;
    }
    yes := SamePiecesInReach(start, end, p, q);
  }

  // The two-pointer scan of canTransform over strings of equal length.
  method SamePiecesInReach(start: string, end: string, ghost p: seq<nat>, ghost q: seq<nat>) returns (yes: bool)
    requires Pieces(start, p) && Pieces(end, q)
    ensures yes <==> InReach(start, p, end, q)
  {
    var i := SkipX(start, 0);
    var j := SkipX(end, 0);
    ghost var k := 0;
    SkippedTo(start, p, 0, 0, i);
    SkippedTo(end, q, 0, 0, j);
    while i >= 0 && j >= 0
      invariant 0 <= k <= |p| && k <= |q| && i == PieceOrEnd(p, k) && j == PieceOrEnd(q, k)
      invariant Checked(start, p, end, q, k)
      decreases |p| - k
    {
      CheckOne(start, p, end, q, k);
      if start[i] != end[j] {
        return false;
      }
      if start[i] == 'L' && i < j {
        return false;
      }
      if start[i] == 'R' && i > j {
        return false;
      }
      i := SkipX(start, i + 1);
      j := SkipX(end, j + 1);
      SkippedTo(start, p, k + 1, p[k] + 1, i);
      SkippedTo(end, q, k + 1, q[k] + 1, j);
      k := k + 1;
    }
    if k == |p| == |q| {
      forall m | 0 <= m < |p| ensures start[p[m]] == end[q[m]] && MayGo(start[p[m]], p[m], q[m]) {
        assert MayGo(start[p[m]], p[m], q[m]);
      }
    }
    return i == j;
  }
}
