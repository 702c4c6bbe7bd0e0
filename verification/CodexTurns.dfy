/**
 Codex replay state: a chain of items cut into turns by marker items. Trimming drops whole turns from the front.
 An item carries the ID of its turn marker, if it is one, and its encoded bytes.
 */
module CodexTurns {
  import opened Options

  datatype Item = Item(marker: Option<string>, bytes: string)

  datatype Limits = Limits(turns: nat, bytes: nat)

  function Size(items: seq<Item>): nat {
    if items == [] then 0 else |items[0].bytes| + Size(items[1..])
  }

  function Markers(items: seq<Item>): nat {
    if items == [] then 0 else (if items[0].marker.Some? then 1 else 0) + Markers(items[1..])
  }

  /** The first item opens a turn even if it is not a marker. */
  function Turns(items: seq<Item>): nat {
    1 + if items == [] then 0 else Markers(items[1..])
  }

  predicate Fits(limits: Limits, items: seq<Item>) {
    Turns(items) <= limits.turns && Size(items) <= limits.bytes
  }

  predicate Boundary(items: seq<Item>, k: int) {
    0 <= k < |items| && (k == 0 || items[k].marker.Some?)
  }

  /** Items without a leading marker are older state, which the next append discards. */
  predicate Rooted(items: seq<Item>) {
    items == [] || items[0].marker.Some?
  }

  /** The first turn boundary from `from` on whose suffix fits, or the end. */
  function FirstFit(limits: Limits, items: seq<Item>, from: nat): (k: nat)
    requires from <= |items|
    ensures from <= k <= |items|
    ensures k < |items| ==> Boundary(items, k) && Fits(limits, items[k..])
    ensures forall j :: from <= j < k && Boundary(items, j) ==> !Fits(limits, items[j..])
    decreases |items| - from
  {
    if from == |items| || (Boundary(items, from) && Fits(limits, items[from..])) then from
    else FirstFit(limits, items, from + 1)
  }

  function Trim(limits: Limits, items: seq<Item>): seq<Item> {
    items[FirstFit(limits, items, 0)..]
  }

  lemma FirstFitUnique(limits: Limits, items: seq<Item>, from: nat, k: nat)
    requires from <= k <= |items|
    requires k < |items| ==> Boundary(items, k) && Fits(limits, items[k..])
    requires forall j :: from <= j < k && Boundary(items, j) ==> !Fits(limits, items[j..])
    ensures FirstFit(limits, items, from) == k
  {
  }

  /**
   Exactly the longest suffix that starts at a turn boundary and meets both limits; nothing if there is none.
   */
  lemma TrimIsLongest(limits: Limits, items: seq<Item>, r: seq<Item>)
    ensures r == Trim(limits, items) <==>
      && (r == [] || exists k :: Boundary(items, k) && r == items[k..] && Fits(limits, r))
      && (forall k :: Boundary(items, k) && Fits(limits, items[k..]) ==> |items[k..]| <= |r|)
  {
    hide Fits;
    var n := FirstFit(limits, items, 0);
    if n < |items| {
      assert Boundary(items, n) && |items[n..]| == |items| - n;
    }
  }

  /** Trimming again changes nothing. */
  lemma TrimIdempotent(limits: Limits, items: seq<Item>)
    ensures Trim(limits, Trim(limits, items)) == Trim(limits, items)
  {
    var r := Trim(limits, items);
    if r != [] {
      assert Boundary(r, 0) && r[0..] == r;
      FirstFitUnique(limits, r, 0, 0);
    }
  }

  /** All items in one text. */
  function Joined(items: seq<Item>): string {
    if items == [] then "" else items[0].bytes + Joined(items[1..])
  }

  /** The indices of markers below a given one. */
  function MarkerPlaces(items: seq<Item>, n: nat): (r: set<nat>)
    requires n <= |items|
    ensures forall i: nat :: i in r <==> i < n && items[i].marker.Some?
  {
    if n == 0 then {} else MarkerPlaces(items, n - 1) + if items[n - 1].marker.Some? then {n - 1} else {}
  }

  /** The size is the bytes in all. */
  lemma {:induction false} SizeIsBytes(items: seq<Item>)
    ensures Size(items) == |Joined(items)|
  {
    if items != [] {
      SizeIsBytes(items[1..]);
    }
  }

  /** Turns are counted by their markers. */
  lemma {:induction false} MarkersAreCounted(items: seq<Item>, n: nat)
    requires n <= |items|
    ensures Markers(items[..n]) == |MarkerPlaces(items, n)|
    decreases n
  {
    hide MarkerPlaces, Markers, Size;
    if n == 0 {
      NoMarkers(items);
    } else {
      MarkersAreCounted(items, n - 1);
      SizeOfPrefix(items, n - 1);
      OneMorePlace(items, n);
    }
  }

  lemma NoMarkers(items: seq<Item>)
    ensures Markers(items[..0]) == 0 == |MarkerPlaces(items, 0)|
  {
  }

  lemma OneMorePlace(items: seq<Item>, n: nat)
    requires 0 < n <= |items|
    ensures |MarkerPlaces(items, n)| == |MarkerPlaces(items, n - 1)| + if items[n - 1].marker.Some? then 1 else 0
  {
    assert n - 1 !in MarkerPlaces(items, n - 1);
  }

  // ---------- Appending commutes with trimming ----------

  lemma {:induction false} SizeOfConcat(a: seq<Item>, b: seq<Item>)
    ensures Size(a + b) == Size(a) + Size(b)
    ensures Markers(a + b) == Markers(a) + Markers(b)
  {
    if a == [] {
      assert a + b == b;
    } else {
      SizeOfConcat(a[1..], b);
      assert (a + b)[1..] == a[1..] + b;
    }
  }

  lemma PartFits(limits: Limits, a: seq<Item>, b: seq<Item>)
    requires Fits(limits, a + b)
    ensures Fits(limits, a)
  {
    SizeOfConcat(a, b);
    if a != [] {
      SizeOfConcat(a[1..], b);
      assert (a + b)[1..] == a[1..] + b;
    }
  }

  lemma NoEarlierFit(limits: Limits, items: seq<Item>, more: seq<Item>, j: nat)
    requires j < FirstFit(limits, items, 0) && Boundary(items + more, j)
    ensures !Fits(limits, (items + more)[j..])
  {
    hide Fits, FirstFit;
    assert (items + more)[j..] == items[j..] + more;
    assert Boundary(items, j);
    if Fits(limits, items[j..] + more) {
      PartFits(limits, items[j..], more);
    }
  }

  lemma BoundaryInPart(whole: seq<Item>, n: nat, j: nat)
    requires n + j < |whole| && (n > 0 ==> whole[n].marker.Some?)
    ensures Boundary(whole[n..], j) <==> Boundary(whole, n + j)
    ensures whole[n..][j..] == whole[n + j..]
  {
    assert whole[n..][j] == whole[n + j];
  }

  /** A suffix of a part is a suffix of the whole, so what does not fit in the one does not fit in the other. */
  lemma NoFitInPart(limits: Limits, whole: seq<Item>, n: nat, j: nat)
    requires n <= |whole| && (0 < n < |whole| ==> whole[n].marker.Some?)
    requires j < FirstFit(limits, whole[n..], 0) && Boundary(whole, n + j)
    ensures !Fits(limits, whole[n + j..])
  {
    hide Fits, FirstFit;
    BoundaryInPart(whole, n, j);
  }

  lemma FitInPart(limits: Limits, whole: seq<Item>, n: nat)
    requires n <= |whole| && (0 < n < |whole| ==> whole[n].marker.Some?)
    ensures var m := FirstFit(limits, whole[n..], 0);
      n + m <= |whole| && (n + m < |whole| ==> Boundary(whole, n + m) && Fits(limits, whole[n + m..]))
  {
    hide Fits, FirstFit;
    var m := FirstFit(limits, whole[n..], 0);
    if n + m < |whole| {
      BoundaryInPart(whole, n, m);
    }
  }

  lemma FitOfConcat(limits: Limits, items: seq<Item>, more: seq<Item>)
    requires Rooted(more)
    ensures var n := FirstFit(limits, items, 0);
      FirstFit(limits, items + more, 0) == n + FirstFit(limits, (items + more)[n..], 0)
  {
    hide Fits, FirstFit, Boundary, Rooted;
    var n, whole := FirstFit(limits, items, 0), items + more;
    var m := FirstFit(limits, whole[n..], 0);
    if 0 < n < |whole| {
      RootAt(limits, items, more);
    }
    forall j | 0 <= j < n + m && Boundary(whole, j) ensures !Fits(limits, whole[j..]) {
      if j < n {
        NoEarlierFit(limits, items, more, j);
      } else {
        NoFitInPart(limits, whole, n, j - n);
      }
    }
    FitInPart(limits, whole, n);
    FirstFitUnique(limits, whole, 0, n + m);
  }

  lemma TailOfConcat(items: seq<Item>, more: seq<Item>, n: nat, m: nat)
    requires n <= |items| && n + m <= |items + more|
    ensures items[n..] + more == (items + more)[n..] && (items[n..] + more)[m..] == (items + more)[n + m..]
  {
  }

  /** Trimming early loses nothing that a later trim would have kept. */
  lemma TrimThenAppend(limits: Limits, items: seq<Item>, more: seq<Item>)
    requires Rooted(more)
    ensures Trim(limits, Trim(limits, items) + more) == Trim(limits, items + more)
  {
    hide Fits, FirstFit, Boundary, Rooted;
    var n := FirstFit(limits, items, 0);
    var part := items[n..] + more;
    var m := FirstFit(limits, part, 0);
    TailOfConcat(items, more, n, m);
    FitOfConcat(limits, items, more);
  }

  lemma RootAt(limits: Limits, items: seq<Item>, more: seq<Item>)
    requires Rooted(more)
    requires var n := FirstFit(limits, items, 0); 0 < n < |items + more|
    ensures (items + more)[FirstFit(limits, items, 0)].marker.Some?
  {
    hide Fits, FirstFit;
  }

  // ---------- The trimming loop ----------

  lemma {:induction false} SizeOfPrefix(items: seq<Item>, n: nat)
    requires n < |items|
    ensures Size(items[..n + 1]) == Size(items[..n]) + |items[n].bytes|
    ensures Markers(items[..n + 1]) == Markers(items[..n]) + if items[n].marker.Some? then 1 else 0
  {
    SizeOfConcat(items[..n], [items[n]]);
    assert items[..n + 1] == items[..n] + [items[n]];
    assert Size([items[n]]) == |items[n].bytes| + Size([]);
  }

  /** Where turns start, and the size of the whole. */
  method TurnStarts(items: seq<Item>) returns (starts: seq<nat>, total: nat)
    ensures |starts| == Turns(items) && starts[0] == 0 && total == Size(items)
    ensures |starts| > 1 ==> 0 < starts[1] < |items| && Boundary(items, starts[1])
    ensures forall k :: 0 < k < (if |starts| > 1 then starts[1] else |items|) ==> !Boundary(items, k)
  {
    starts, total := [0], 0;
    for n := 0 to |items|
      invariant total == Size(items[..n])
      invariant starts != [] && starts[0] == 0
      invariant |starts| == 1 + if n == 0 then 0 else Markers(items[1..][..n - 1])
      invariant |starts| > 1 ==> 0 < starts[1] < n && Boundary(items, starts[1])
      invariant forall k :: 0 < k < (if |starts| > 1 then starts[1] else n) ==> !Boundary(items, k)
    {
      SizeOfPrefix(items, n);
      total := total + |items[n].bytes|;
      if n > 0 {
        SizeOfPrefix(items[1..], n - 1);
        if items[n].marker.Some? {
          starts := starts + [n];
        }
      }
    }
    assert items[..|items|] == items;
    assert items != [] ==> items[1..][..|items| - 1] == items[1..];
  }

  method TrimItems(limits: Limits, items: seq<Item>) returns (r: seq<Item>)
    ensures r == Trim(limits, items)
  {
    hide Size, Markers;
    r := items;
    ghost var n := 0;
    while true
      invariant n <= |items| && r == items[n..] && (n == 0 || Boundary(items, n))
      invariant forall j :: 0 <= j < n && Boundary(items, j) ==> !Fits(limits, items[j..])
      decreases |items| - n
    {
      var starts, total := TurnStarts(r);
      if |starts| <= limits.turns && total <= limits.bytes {
        FirstFitUnique(limits, items, 0, n);
        return;
      }
      forall j | n < j < |items| ensures Boundary(items, j) <==> Boundary(r, j - n) {
        assert items[j] == r[j - n];
      }
      assert !Fits(limits, items[n..]);
      if |starts| <= 1 {
        FirstFitUnique(limits, items, 0, |items|);
        return [];
      }
      assert Boundary(items, n + starts[1]);
      n := n + starts[1];
      r := r[starts[1]..];
    }
  }

  // ---------- Appending a turn ----------

  predicate HasTurn(items: seq<Item>, id: string) {
    exists i :: 0 <= i < |items| && items[i].marker == Some(id)
  }

  /** The ID that makes a turn recognizable, or the empty string. */
  function TurnId(turn: seq<Item>): string {
    if turn != [] && turn[0].marker.Some? then turn[0].marker.value else ""
  }

  function AppendTurn(limits: Limits, existing: seq<Item>, turn: seq<Item>): seq<Item> {
    var base := if Rooted(existing) then existing else [];
    if TurnId(turn) != "" && HasTurn(base, TurnId(turn)) then Trim(limits, base) else Trim(limits, base + turn)
  }

  method AppendReplayTurn(limits: Limits, existing: seq<Item>, turn: seq<Item>) returns (r: seq<Item>)
    ensures r == AppendTurn(limits, existing, turn)
  {
    hide Trim;
    var base := existing;
    if |existing| > 0 && existing[0].marker.None? {
      base := [];
    }
    var id := TurnId(turn);
    if id != "" {
      for i := 0 to |base|
        invariant forall j :: 0 <= j < i ==> base[j].marker != Some(id)
      {
        if base[i].marker == Some(id) {
          r := TrimItems(limits, base);
          return;
        }
      }
    }
    r := TrimItems(limits, base + turn);
  }

  /** One leading marker that carries an ID. */
  predicate IsTurn(turn: seq<Item>) {
    turn != [] && TurnId(turn) != "" && forall i :: 0 < i < |turn| ==> turn[i].marker.None?
  }

  /** No turn ID occurs twice. */
  predicate OnceEach(items: seq<Item>) {
    forall i, j :: 0 <= i < j < |items| && items[i].marker.Some? && items[i].marker.value != "" ==>
      items[i].marker != items[j].marker
  }

  /** What appending leaves behind: within the limits and opened by a marker. */
  predicate Settled(limits: Limits, items: seq<Item>) {
    Rooted(items) && Trim(limits, items) == items
  }

  lemma TrimKeepsRoot(limits: Limits, items: seq<Item>)
    requires Rooted(items)
    ensures Settled(limits, Trim(limits, items))
  {
    hide Fits;
    TrimIdempotent(limits, items);
  }

  lemma TrimKeepsOnceEach(limits: Limits, items: seq<Item>)
    requires OnceEach(items)
    ensures OnceEach(Trim(limits, items))
  {
    hide FirstFit, OnceEach;
    SuffixOnceEach(items, FirstFit(limits, items, 0));
  }

  lemma SuffixOnceEach(items: seq<Item>, n: nat)
    requires OnceEach(items) && n <= |items|
    ensures OnceEach(items[n..])
  {
    assert forall i :: 0 <= i < |items| - n ==> items[n..][i] == items[n + i];
  }

  /** Appending settles whatever was there. */
  lemma AppendSettles(limits: Limits, existing: seq<Item>, turn: seq<Item>)
    requires Rooted(turn)
    ensures Settled(limits, AppendTurn(limits, existing, turn))
  {
    hide Settled, Trim;
    var base := if Rooted(existing) then existing else [];
    TrimKeepsRoot(limits, base);
    TrimKeepsRoot(limits, base + turn);
  }

  /** Appending a turn keeps turn IDs unique. */
  lemma AppendKeepsOnceEach(limits: Limits, existing: seq<Item>, turn: seq<Item>)
    requires IsTurn(turn) && OnceEach(existing)
    ensures OnceEach(AppendTurn(limits, existing, turn))
  {
    hide Trim;
    var base := if Rooted(existing) then existing else [];
    TrimKeepsOnceEach(limits, base);
    if !HasTurn(base, TurnId(turn)) {
      TrimKeepsOnceEach(limits, base + turn);
    }
  }

  /** A turn that is stored is not stored again. */
  lemma ReappendChangesNothing(limits: Limits, items: seq<Item>, turn: seq<Item>)
    requires Settled(limits, items) && TurnId(turn) != "" && HasTurn(items, TurnId(turn))
    ensures AppendTurn(limits, items, turn) == items
  {
  }

  lemma EndFits(limits: Limits, a: seq<Item>, b: seq<Item>)
    requires Fits(limits, a + b) && b != [] && b[0].marker.Some?
    ensures Fits(limits, b)
  {
    SizeOfConcat(a, b);
    if a == [] {
      assert a + b == b;
    } else {
      SizeOfConcat(a[1..], b);
      assert (a + b)[1..] == a[1..] + b;
    }
  }

  /** Where the trim of a chain and one more turn begins: before the turn exactly when the turn fits. */
  lemma TurnKept(limits: Limits, items: seq<Item>, turn: seq<Item>)
    requires IsTurn(turn)
    ensures var n := FirstFit(limits, items + turn, 0);
      (n <= |items| <==> Fits(limits, turn)) && (n > |items| ==> n == |items + turn|)
  {
    hide Fits, FirstFit;
    var whole := items + turn;
    var n := FirstFit(limits, whole, 0);
    assert whole[|items|..] == turn && whole[|items|] == turn[0];
    assert Boundary(whole, |items|);
    if n <= |items| {
      assert whole[n..] == items[n..] + turn;
      EndFits(limits, items[n..], turn);
    } else {
      assert forall i :: |items| < i < |whole| ==> whole[i] == turn[i - |items|];
    }
  }

  /** A turn is stored after its append exactly when it was there already or fits by itself. */
  lemma AppendStores(limits: Limits, items: seq<Item>, turn: seq<Item>)
    requires Settled(limits, items) && IsTurn(turn)
    ensures HasTurn(AppendTurn(limits, items, turn), TurnId(turn)) <==>
      HasTurn(items, TurnId(turn)) || Fits(limits, turn)
  {
    hide Fits, FirstFit, Trim, HasTurn, Settled;
    if HasTurn(items, TurnId(turn)) {
      ReappendChangesNothing(limits, items, turn);
    } else {
      AppendsMissing(limits, items, turn);
      TrimStores(limits, items, turn);
    }
  }

  lemma AppendsMissing(limits: Limits, items: seq<Item>, turn: seq<Item>)
    requires Settled(limits, items) && !HasTurn(items, TurnId(turn))
    ensures AppendTurn(limits, items, turn) == Trim(limits, items + turn)
  {
    hide Trim;
  }

  lemma TrimStores(limits: Limits, items: seq<Item>, turn: seq<Item>)
    requires IsTurn(turn) && !HasTurn(items, TurnId(turn))
    ensures HasTurn(Trim(limits, items + turn), TurnId(turn)) <==> Fits(limits, turn)
  {
    hide Fits, FirstFit;
    TurnKept(limits, items, turn);
    var n := FirstFit(limits, items + turn, 0);
    var r := (items + turn)[n..];
    if n <= |items| {
      assert r[|items| - n] == turn[0];
    }
  }

  function AppendAll(limits: Limits, items: seq<Item>, turns: seq<seq<Item>>): seq<Item>
    decreases |turns|
  {
    if turns == [] then items else AppendAll(limits, AppendTurn(limits, items, turns[0]), turns[1..])
  }

  /** The turns that were not stored when they were appended, joined. */
  function Added(limits: Limits, items: seq<Item>, turns: seq<seq<Item>>): seq<Item>
    decreases |turns|
  {
    if turns == [] then []
    else
      (if HasTurn(items, TurnId(turns[0])) then [] else turns[0])
      + Added(limits, AppendTurn(limits, items, turns[0]), turns[1..])
  }

  /** Any number of appends is one trim at the end: a turn leaves only when the front is cut off. */
  lemma {:induction false} AppendsOnlyTrim(limits: Limits, items: seq<Item>, turns: seq<seq<Item>>)
    requires Settled(limits, items) && forall i :: 0 <= i < |turns| ==> TurnId(turns[i]) != ""
    ensures Rooted(Added(limits, items, turns))
    ensures AppendAll(limits, items, turns) == Trim(limits, items + Added(limits, items, turns))
    decreases |turns|
  {
    hide Trim, AppendTurn, Settled, HasTurn, TurnId;
    if turns == [] {
      assert items + [] == items;
      SettledIsTrimmed(limits, items);
    } else {
      var turn := turns[0];
      var next := AppendTurn(limits, items, turn);
      LedIsRooted(turn);
      AppendSettles(limits, items, turn);
      AppendsOnlyTrim(limits, next, turns[1..]);
      var rest := Added(limits, next, turns[1..]);
      if HasTurn(items, TurnId(turn)) {
        ReappendChangesNothing(limits, items, turn);
        assert [] + rest == rest;
      } else {
        AppendsMissing(limits, items, turn);
        assert (items + turn) + rest == items + (turn + rest);
        TrimThenAppend(limits, items + turn, rest);
        assert turn != [] ==> (turn + rest)[0] == turn[0];
      }
    }
  }

  lemma SettledIsTrimmed(limits: Limits, items: seq<Item>)
    requires Settled(limits, items)
    ensures Trim(limits, items) == items
  {
  }

  lemma LedIsRooted(turn: seq<Item>)
    requires TurnId(turn) != ""
    ensures Rooted(turn) && turn != []
  {
  }
}
