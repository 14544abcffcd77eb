/** The word error rate calculator (compute-wer.py:85-219; compute_wer_line.py has the same one), whose table and counts
    live on from call to call. */
module ComputeWer {
  import opened EditDistance

  datatype Error = Non | Cor | Sub | Del | Ins

  datatype Cell = Cell(dist: nat, error: Error)

  datatype Result = Result(lab: seq<Token>, rec: seq<Token>, counts: Counts)

  const MAX_SIZE: nat := 0x7FFF_FFFF_FFFF_FFFF

  /** The entry for `i` reference and `j` recognized tokens: their distance, and an edit that attains it. */
  ghost predicate CellOk(a: seq<Token>, b: seq<Token>, i: nat, j: nat, cell: Cell)
    requires i <= |a| && j <= |b|
  {
    && cell.dist == Dist(a, b, i, j)
    && match cell.error
       case Non => i == 0 && j == 0
       case Cor => i > 0 && j > 0 && a[i - 1] == b[j - 1] && cell.dist == Dist(a, b, i - 1, j - 1)
       case Sub => i > 0 && j > 0 && a[i - 1] != b[j - 1] && cell.dist == Dist(a, b, i - 1, j - 1) + 1
       case Del => i > 0 && cell.dist == Dist(a, b, i - 1, j) + 1
       case Ins => j > 0 && cell.dist == Dist(a, b, i, j - 1) + 1
  }

  ghost predicate BigEnough(space: seq<seq<Cell>>, m: nat, n: nat) {
    |space| > m && forall i :: 0 <= i < |space| ==> |space[i]| > n
  }

  /** Row by row, the entries before `(i, j)` and those on the border are done. */
  ghost predicate Done(space: seq<seq<Cell>>, a: seq<Token>, b: seq<Token>, i: nat, j: nat) {
    && BigEnough(space, |a|, |b|)
    && forall p: nat, q: nat :: p <= |a| && q <= |b| && (p == 0 || q == 0 || p < i || (p == i && q < j)) ==>
       CellOk(a, b, p, q, space[p][q])
  }

  lemma {:induction false} DistBound(a: seq<Token>, b: seq<Token>, i: nat, j: nat)
    requires i <= |a| && j <= |b|
    ensures Dist(a, b, i, j) <= i + j
  {
    if i > 0 && j > 0 { DistBound(a, b, i - 1, j); }
  }

  class Calculator {
    var data: map<Token, Counts>
    var tokens: seq<Token>         // the keys of `data`, in the order they were added
    var space: seq<seq<Cell>>
    ghost var total: Counts        // the sum of all results so far

    ghost predicate Valid()
      reads this`data, this`tokens, this`total
    {
      Distinct(tokens) && (forall t :: t in data <==> t in tokens) && Sum(tokens, data) == total
    }

    constructor ()
      ensures Valid() && total == NO_COUNTS
    {
      data, tokens, space, total := map[], [], [], NO_COUNTS;
    }

    /** Grow the table and clear what earlier calls left in it. */
    method Initialize(a: seq<Token>, b: seq<Token>)
      modifies this`space
      ensures Done(space, a, b, 0, 0)
    {
      while |space| < |a| + 1
        invariant |space| >= |old(space)|
        decreases |a| + 1 - |space|
      {
        space := space + [[]];
      }
      var k: nat := 0;
      while k < |space|
        invariant k <= |space| && |space| > |a|
        invariant forall i :: 0 <= i < k ==> |space[i]| > |b|
      {
        var row := ClearRow(space[k], |b| + 1);
        space := space[k := row];
        k := k + 1;
      }
      var i: nat := 0;
      while i < |a| + 1
        invariant i <= |a| + 1 && BigEnough(space, |a|, |b|)
        invariant forall p: nat :: p < i ==> space[p][0] == Cell(p, Del)
      {
        space := space[i := space[i][0 := Cell(i, Del)]];
        i := i + 1;
      }
      var j: nat := 0;
      while j < |b| + 1
        invariant j <= |b| + 1 && BigEnough(space, |a|, |b|)
        invariant forall p: nat :: 0 < p <= |a| ==> space[p][0] == Cell(p, Del)
        invariant forall q: nat :: q < j ==> space[0][q] == Cell(q, Ins)
      {
        space := space[0 := space[0][j := Cell(j, Ins)]];
        j := j + 1;
      }
      space := space[0 := space[0][0 := space[0][0].(error := Non)]];
    }

    method ClearRow(row0: seq<Cell>, size: nat) returns (row: seq<Cell>)
      ensures |row| >= size && |row| >= |row0| && forall k :: 0 <= k < |row| ==> row[k] == Cell(0, Non)
    {
      row := row0;
      var k: nat := 0;
      while k < |row|
        invariant k <= |row| == |row0| && forall l :: 0 <= l < k ==> row[l] == Cell(0, Non)
      {
        row := row[k := Cell(0, Non)];
        k := k + 1;
      }
      while |row| < size
        invariant |row| >= |row0| && forall l :: 0 <= l < |row| ==> row[l] == Cell(0, Non)
        decreases size - |row|
      {
        row := row + [Cell(0, Non)];
      }
    }

    /** Tokens seen for the first time get counts of their own. */
    method AddTokens(list: seq<Token>)
      requires Valid()
      modifies this`data, this`tokens
      ensures Valid() && forall t :: t in data <==> t in old(data) || (t in list && t != "")
    {
      hide Valid;
      var k: nat := 0;
      while k < |list|
        invariant k <= |list| && Valid()
        invariant forall t :: t in data <==> t in old(data) || (t in list[..k] && t != "")
      {
        assert list[..k + 1] == list[..k] + [list[k]];
        AddToken(list[k]);
        k := k + 1;
      }
      assert list[..k] == list;
    }

    method AddToken(token: Token)
      requires Valid()
      modifies this`data, this`tokens
      ensures Valid() && forall t :: t in data <==> t in old(data) || (t == token && t != "")
    {
      hide Sum;
      if token !in data && |token| > 0 {
        SumNew(tokens, data, token);
        data := data[token := NO_COUNTS];
        tokens := tokens + [token];
      }
    }

    /** One entry of the table (compute-wer.py:122-149). */
    method Entry(lab: seq<Token>, rec: seq<Token>, a: seq<Token>, b: seq<Token>, i: nat, j: nat) returns (cell: Cell)
      requires lab == [""] + a && rec == [""] + b && |a| + |b| < MAX_SIZE
      requires 0 < i <= |a| && 0 < j <= |b| && Done(space, a, b, i, j)
      ensures CellOk(a, b, i, j, cell)
    {
      hide Dist;
      assert CellOk(a, b, i - 1, j, space[i - 1][j]) && CellOk(a, b, i, j - 1, space[i][j - 1])
             && CellOk(a, b, i - 1, j - 1, space[i - 1][j - 1]);
      DistBound(a, b, i - 1, j);
      OneEntry(a, b, i, j);
      var minDist, minError := MAX_SIZE, Non;
      var dist := space[i - 1][j].dist + 1;
      var error := Del;
      if dist < minDist { minDist, minError := dist, error; }
      dist := space[i][j - 1].dist + 1;
      error := Ins;
      if dist < minDist { minDist, minError := dist, error; }
      if lab[i] == rec[j] {
        dist := space[i - 1][j - 1].dist;
        error := Cor;
      } else {
        dist := space[i - 1][j - 1].dist + 1;
        error := Sub;
      }
      if dist < minDist { minDist, minError := dist, error; }
      cell := Cell(minDist, minError);
    }

    lemma OneEntry(a: seq<Token>, b: seq<Token>, i: nat, j: nat)
      requires 0 < i <= |a| && 0 < j <= |b|
      ensures Dist(a, b, i, j) == Min(Min(Dist(a, b, i - 1, j) + 1, Dist(a, b, i, j - 1) + 1),
                                      Dist(a, b, i - 1, j - 1) + SubCost(a[i - 1], b[j - 1]))
    {
    }

    method ComputeDistances(lab: seq<Token>, rec: seq<Token>, a: seq<Token>, b: seq<Token>)
      requires lab == [""] + a && rec == [""] + b && |a| + |b| < MAX_SIZE && Done(space, a, b, 0, 0)
      modifies this`space
      ensures Done(space, a, b, |a| + 1, 0)
    {
      hide CellOk;
      var i: nat := 0;
      while i < |lab|
        invariant i <= |lab| && Done(space, a, b, i, 0)
      {
        var j: nat := 0;
        while j < |rec|
          invariant j <= |rec| && Done(space, a, b, i, j)
        {
          if i != 0 && j != 0 {
            var cell := Entry(lab, rec, a, b, i, j);
            space := space[i := space[i][j := cell]];
          }
          j := j + 1;
        }
        i := i + 1;
      }
    }

    /** Count an edit for a token. */
    method Count(t: Token, c: Counts)
      requires Valid() && t in data
      modifies this`data, this`total
      ensures Valid() && total == Plus(old(total), c) && data.Keys == old(data).Keys
    {
      SumUpdate(tokens, data, t, c);
      data := data[t := Plus(data[t], c)];
      total := Plus(total, c);
    }

    /** The columns so far with one more in front of them. */
    static ghost function With(r: Result, x: Token, y: Token): Result {
      Result([x] + r.lab, [y] + r.rec, Plus(r.counts, ColumnCounts(x, y)))
    }

    method Correct(result0: Result, x: Token, y: Token) returns (result: Result)
      requires Valid() && x in data && x != "" && x == y
      modifies this`data, this`total
      ensures Valid() && data.Keys == old(data).Keys
      ensures result == With(result0, x, y) && total == Plus(old(total), ColumnCounts(x, y))
    {
      hide Valid;
      result := result0;
      if |x| > 0 {
        Count(x, Counts(1, 1, 0, 0, 0));
        result := result.(counts := Plus(result.counts, Counts(1, 1, 0, 0, 0)));
      }
      result := result.(lab := [x] + result.lab, rec := [y] + result.rec);
    }

    method Substitute(result0: Result, x: Token, y: Token) returns (result: Result)
      requires Valid() && x in data && x != "" && y != "" && x != y
      modifies this`data, this`total
      ensures Valid() && data.Keys == old(data).Keys
      ensures result == With(result0, x, y) && total == Plus(old(total), ColumnCounts(x, y))
    {
      hide Valid;
      result := result0;
      if |x| > 0 {
        Count(x, Counts(1, 0, 1, 0, 0));
        result := result.(counts := Plus(result.counts, Counts(1, 0, 1, 0, 0)));
      }
      result := result.(lab := [x] + result.lab, rec := [y] + result.rec);
    }

    method Delete(result0: Result, x: Token) returns (result: Result)
      requires Valid() && x in data && x != ""
      modifies this`data, this`total
      ensures Valid() && data.Keys == old(data).Keys
      ensures result == With(result0, x, "") && total == Plus(old(total), ColumnCounts(x, ""))
    {
      hide Valid;
      result := result0;
      if |x| > 0 {
        Count(x, Counts(1, 0, 0, 0, 1));
        result := result.(counts := Plus(result.counts, Counts(1, 0, 0, 0, 1)));
      }
      result := result.(lab := [x] + result.lab, rec := [""] + result.rec);
    }

    method Insert(result0: Result, y: Token) returns (result: Result)
      requires Valid() && y in data && y != ""
      modifies this`data, this`total
      ensures Valid() && data.Keys == old(data).Keys
      ensures result == With(result0, "", y) && total == Plus(old(total), ColumnCounts("", y))
    {
      hide Valid;
      result := result0;
      if |y| > 0 {
        Count(y, Counts(0, 0, 0, 1, 0));
        result := result.(counts := Plus(result.counts, Counts(0, 0, 0, 1, 0)));
      }
      result := result.(lab := [""] + result.lab, rec := [y] + result.rec);
    }

    /** What the entry at `(i, j)` says of the column before it. */
    static ghost predicate Leads(a: seq<Token>, b: seq<Token>, i: nat, j: nat, x: Token, y: Token)
      requires i <= |a| && j <= |b|
    {
      && (x != "" || y != "")
      && (x != "" ==> i > 0 && a[i - 1] == x) && (y != "" ==> j > 0 && b[j - 1] == y)
      && var (i', j') := (if x == "" then i else i - 1, if y == "" then j else j - 1);
         Dist(a, b, i, j) == Dist(a, b, i', j') + SubCost(x, y)
    }

    static lemma {:induction false} EditLeads(lab: seq<Token>, rec: seq<Token>, a: seq<Token>, b: seq<Token>, i: nat,
                                              j: nat, cell: Cell)
      requires lab == [""] + a && rec == [""] + b && NonEmpty(a) && NonEmpty(b)
      requires i <= |a| && j <= |b| && CellOk(a, b, i, j, cell)
      ensures cell.error == Cor ==> i > 0 && j > 0 && lab[i] == rec[j] && Leads(a, b, i, j, lab[i], rec[j])
      ensures cell.error == Sub ==> i > 0 && j > 0 && lab[i] != rec[j] && Leads(a, b, i, j, lab[i], rec[j])
      ensures cell.error == Del ==> i > 0 && Leads(a, b, i, j, lab[i], "")
      ensures cell.error == Ins ==> j > 0 && Leads(a, b, i, j, "", rec[j])
      ensures cell.error == Non ==> i == 0 && j == 0
    {
      hide Dist;
      Known(a, i);
      Known(b, j);
    }

    static lemma PlusWith(before: Counts, r: Result, x: Token, y: Token)
      ensures Plus(Plus(before, r.counts), ColumnCounts(x, y)) == Plus(before, With(r, x, y).counts)
    {
    }

    static ghost predicate AllKnown(list: seq<Token>, known: set<Token>) {
      forall t :: t in list ==> t in known
    }

    /** One step back, by the edit of the entry. */
    method StepBack(lab: seq<Token>, rec: seq<Token>, ghost a: seq<Token>, ghost b: seq<Token>, i0: nat, j0: nat,
                    error: Error, result0: Result) returns (result: Result, i: nat, j: nat)
      requires Valid() && lab == [""] + a && rec == [""] + b && NonEmpty(a) && NonEmpty(b)
      requires AllKnown(a, data.Keys) && AllKnown(b, data.Keys)
      requires i0 <= |a| && j0 <= |b| && Traced(result0, a, b, i0, j0)
      requires exists cell :: CellOk(a, b, i0, j0, cell) && cell.error == error != Non
      modifies this`data, this`total
      ensures Valid() && data.Keys == old(data).Keys
      ensures i <= |a| && j <= |b| && i + j < i0 + j0 && Traced(result, a, b, i, j)
      ensures exists x, y :: result == With(result0, x, y) && total == Plus(old(total), ColumnCounts(x, y))
    {
      hide Dist, Valid, Traced, NonEmpty, CellOk, Leads, ColumnCounts, With, Plus;
      ghost var cell :| CellOk(a, b, i0, j0, cell) && cell.error == error != Non;
      EditLeads(lab, rec, a, b, i0, j0, cell);
      Known(a, i0);
      Known(b, j0);
      result, i, j := result0, i0, j0;
      if error == Cor {
        Trace(result, a, b, i, j, lab[i], rec[j]);
        result := Correct(result, lab[i], rec[j]);
        i, j := i - 1, j - 1;
      } else if error == Sub {
        Trace(result, a, b, i, j, lab[i], rec[j]);
        result := Substitute(result, lab[i], rec[j]);
        i, j := i - 1, j - 1;
      } else if error == Del {
        Trace(result, a, b, i, j, lab[i], "");
        result := Delete(result, lab[i]);
        i := i - 1;
      } else {
        Trace(result, a, b, i, j, "", rec[j]);
        result := Insert(result, rec[j]);
        j := j - 1;
      }
    }

    /** The traceback (compute-wer.py:150-198). */
    method TraceBack(lab: seq<Token>, rec: seq<Token>, ghost a: seq<Token>, ghost b: seq<Token>)
      returns (result: Result)
      requires Valid() && lab == [""] + a && rec == [""] + b && NonEmpty(a) && NonEmpty(b)
      requires Done(space, a, b, |a| + 1, 0) && AllKnown(a, data.Keys) && AllKnown(b, data.Keys)
      modifies this`data, this`total
      ensures Valid() && total == Plus(old(total), result.counts)
      ensures Traced(result, a, b, 0, 0)
    {
      hide Dist, Valid, Traced, Done, NonEmpty, CellOk, ColumnCounts, With, Plus, AllKnown;
      result := Result([], [], NO_COUNTS);
      var i: nat, j: nat := |lab| - 1, |rec| - 1;
      NothingTraced(a, b);
      PlusNone(total);
      while true
        invariant i <= |a| && j <= |b| && Valid() && AllKnown(a, data.Keys) && AllKnown(b, data.Keys)
        invariant Traced(result, a, b, i, j) && total == Plus(old(total), result.counts)
        decreases i + j
      {
        EntryDone(space, a, b, i, j);
        var error := space[i][j].error;
        if error == Non {
          AtOrigin(a, b, i, j, space[i][j]);
          break;
        }
        ghost var was := result;
        result, i, j := StepBack(lab, rec, a, b, i, j, error, result);
        ghost var x, y :| result == With(was, x, y) && total == Plus(Plus(old(total), was.counts), ColumnCounts(x, y));
        PlusWith(old(total), was, x, y);
      }
    }

    static lemma PlusNone(c: Counts)
      ensures Plus(c, NO_COUNTS) == c
    {
    }

    static lemma AtOrigin(a: seq<Token>, b: seq<Token>, i: nat, j: nat, cell: Cell)
      requires i <= |a| && j <= |b| && CellOk(a, b, i, j, cell) && cell.error == Non
      ensures i == 0 && j == 0
    {
    }

    /** The columns found so far align the rest of both lists at the cost that is left, and are counted. */
    static ghost predicate Traced(r: Result, a: seq<Token>, b: seq<Token>, i: nat, j: nat)
      requires i <= |a| && j <= |b|
    {
      && Aligns(r.lab, r.rec, a[i..], b[j..])
      && Cost(r.lab, r.rec) + Dist(a, b, i, j) == Dist(a, b, |a|, |b|)
      && Counted(r, |a| - i, |b| - j)
    }

    /** The counts are those of the columns: errors, reference tokens and recognized tokens. */
    static ghost predicate Counted(r: Result, m: int, n: int) {
      && |r.lab| == |r.rec| && r.counts == Columns(r.lab, r.rec)
      && r.counts.sub + r.counts.del + r.counts.ins == Cost(r.lab, r.rec)
      && r.counts.all == r.counts.cor + r.counts.sub + r.counts.del == m
      && r.counts.cor + r.counts.sub + r.counts.ins == n
    }

    static lemma {:induction false} CountColumn(r: Result, m: int, n: int, x: Token, y: Token)
      requires Counted(r, m, n) && (x != "" || y != "")
      ensures Counted(Result([x] + r.lab, [y] + r.rec, Plus(r.counts, ColumnCounts(x, y))),
                      if x == "" then m else m + 1, if y == "" then n else n + 1)
    {
      hide Columns;
      ColumnsOne(x, y, r.lab, r.rec);
      assert ([x] + r.lab)[1..] == r.lab && ([y] + r.rec)[1..] == r.rec;
    }

    /** One more column. */
    static lemma {:induction false} Trace(r: Result, a: seq<Token>, b: seq<Token>, i: nat, j: nat, x: Token, y: Token)
      requires i <= |a| && j <= |b| && Traced(r, a, b, i, j) && Leads(a, b, i, j, x, y)
      ensures (x != "" ==> i > 0) && (y != "" ==> j > 0)
      ensures Traced(With(r, x, y), a, b, if x == "" then i else i - 1, if y == "" then j else j - 1)
    {
      hide Dist, Cost, Kept, Counted, ColumnCounts;
      AlignOne(x, y, r.lab, r.rec, a[i..], b[j..]);
      CountColumn(r, |a| - i, |b| - j, x, y);
      assert x != "" ==> [x] + a[i..] == a[i - 1..];
      assert y != "" ==> [y] + b[j..] == b[j - 1..];
      assert [] + a[i..] == a[i..] && [] + b[j..] == b[j..];
    }

    static lemma EntryDone(space: seq<seq<Cell>>, a: seq<Token>, b: seq<Token>, i: nat, j: nat)
      requires Done(space, a, b, |a| + 1, 0) && i <= |a| && j <= |b|
      ensures i < |space| && j < |space[i]| && CellOk(a, b, i, j, space[i][j])
    {
      hide CellOk;
    }

    static lemma Known(list: seq<Token>, i: nat)
      requires NonEmpty(list) && i <= |list|
      ensures i > 0 ==> list[i - 1] in list && list[i - 1] != ""
    {
    }

    static lemma NothingTraced(a: seq<Token>, b: seq<Token>)
      ensures Traced(Result([], [], NO_COUNTS), a, b, |a|, |b|)
    {
    }

    static lemma Origin(r: Result, a: seq<Token>, b: seq<Token>)
      requires Traced(r, a, b, 0, 0)
      ensures Aligns(r.lab, r.rec, a, b) && Cost(r.lab, r.rec) == Dist(a, b, |a|, |b|)
              && r.counts == Columns(r.lab, r.rec)
      ensures r.counts.sub + r.counts.del + r.counts.ins == Cost(r.lab, r.rec)
      ensures r.counts.all == r.counts.cor + r.counts.sub + r.counts.del == |a|
      ensures r.counts.cor + r.counts.sub + r.counts.ins == |b|
    {
      assert a[0..] == a && b[0..] == b;
    }

    /** Whatever was calculated before: a cheapest alignment of the two lists, its counts, and all counts added up. */
    method Calculate(a: seq<Token>, b: seq<Token>) returns (result: Result)
      requires Valid() && NonEmpty(a) && NonEmpty(b) && |a| + |b| < MAX_SIZE
      modifies this
      ensures Valid() && total == Plus(old(total), result.counts)
      ensures Aligns(result.lab, result.rec, a, b) && result.counts == Columns(result.lab, result.rec)
      ensures forall l, r :: Aligns(l, r, a, b) ==> Cost(result.lab, result.rec) <= Cost(l, r)
      ensures result.counts.sub + result.counts.del + result.counts.ins == Cost(result.lab, result.rec) ==
                Dist(a, b, |a|, |b|)
      ensures result.counts.all == result.counts.cor + result.counts.sub + result.counts.del == |a|
      ensures result.counts.cor + result.counts.sub + result.counts.ins == |b|
    {
      hide Done, Dist, Valid, Traced;
      var lab, rec := [""] + a, [""] + b;
      Initialize(a, b);
      AddTokens(lab);
      AddTokens(rec);
      ComputeDistances(lab, rec, a, b);
      result := TraceBack(lab, rec, a, b);
      Origin(result, a, b);
      forall l, r | Aligns(l, r, a, b)
        ensures Cost(result.lab, result.rec) <= Cost(l, r)
      {
        DistIsMinimal(a, b, l, r);
      }
    }

    static lemma SumNone(data: map<Token, Counts>)
      ensures Sum([], data) == NO_COUNTS
    {
    }

    /** The counts of all tokens. */
    method Overall() returns (result: Counts)
      requires Valid()
      ensures result == total
    {
      hide Sum;
      assert Sum([], data) == NO_COUNTS by { SumNone(data); }
      result := NO_COUNTS;
      var k: nat := 0;
      while k < |tokens|
        invariant k <= |tokens| && result == Sum(tokens[..k], data)
      {
        SumSnoc(tokens, data, k);
        result := Plus(result, data[tokens[k]]);
        k := k + 1;
      }
      assert tokens[..k] == tokens;
    }

    /** The counts of the listed tokens. */
    method Cluster(list: seq<Token>) returns (result: Counts)
      ensures result == Sum(list, data)
    {
      hide Sum;
      assert Sum([], data) == NO_COUNTS by { SumNone(data); }
      result := NO_COUNTS;
      var k: nat := 0;
      while k < |list|
        invariant k <= |list| && result == Sum(list[..k], data)
      {
        SumSnoc(list, data, k);
        if list[k] in data {
          result := Plus(result, data[list[k]]);
        }
        k := k + 1;
      }
      assert list[..k] == list;
    }
  }
}
