/** The server's read-only handlers: the product listing, the role dashboards,
    a user's orders split into buying and selling, and the root's per-branch
    report of completed orders. */
module Queries {
  import opened Wrappers
  import opened Seqs
  import opened Market

  function ProductCreatedAt(p: Product): int { p.createdAt }
  function TransactionCreatedAt(t: Transaction): int { t.createdAt }

  /** Whether `GET /api/products?branch=...` adds a branch condition: only for a
      non-empty value other than 'Semua' ("all"). `None` is an absent parameter. */
  predicate FiltersBranch(branch: Option<string>)
  {
    branch.Some? && branch.value != "" && branch.value != "Semua"
  }

  /** The condition of the product query. */
  predicate Listed(p: Product, branch: Option<string>)
  {
    p.status == Available && (FiltersBranch(branch) ==> p.branchOrigin == branch.value)
  }

  /** `GET /api/products`: available products, from the requested branch when one
      is given, newest first. */
  function ProductListing(ps: seq<Product>, branch: Option<string>): (r: seq<Product>)
    ensures forall p :: p in r <==> p in ps && Listed(p, branch)
    ensures forall p :: multiset(r)[p] == if Listed(p, branch) then multiset(ps)[p] else 0
    ensures NewestFirst(r, ProductCreatedAt)
  {
    SelectNewestFirst(ps, (p: Product) => Listed(p, branch), ProductCreatedAt)
  }

  /** The `$match` / `find` condition of the root's views. */
  predicate IsCompleted(t: Transaction) { t.status == Completed }

  /** `GET /api/dashboard/:role?branch=...`: the root sees every completed
      order; a branch admin every order of their branch; an agent the orders of
      their branch that are `Assigned` and paid `cod_agent`; any other role
      nothing. Mongo promises no order here; the model returns store order. */
  function Dashboard(txs: seq<Transaction>, role: string, branch: string): (r: seq<Transaction>)
    ensures role == "root" ==> forall t :: t in r <==> t in txs && t.status == Completed
    ensures role == "branch_admin" ==> forall t :: t in r <==> t in txs && t.branchLocation == branch
    ensures role == "agent" ==> forall t :: t in r <==>
      t in txs && t.branchLocation == branch && t.status == Assigned && t.paymentMethod == CodAgent
    ensures role == "root" ==> forall t :: multiset(r)[t] == if t.status == Completed then multiset(txs)[t] else 0
    ensures role == "branch_admin" ==> forall t :: multiset(r)[t] == if t.branchLocation == branch then multiset(txs)[t] else 0
    ensures role == "agent" ==> forall t :: multiset(r)[t] == if t.branchLocation == branch && t.status == Assigned && t.paymentMethod == CodAgent then multiset(txs)[t] else 0
    ensures role !in ["root", "branch_admin", "agent"] ==> r == []
    ensures IsSubsequence(r, txs)
  {
    if role == "root" then
      var keep := IsCompleted;
      FilterKeepsOrder(txs, keep);
      FilterCounts(txs, keep);
      Filter(txs, keep)
    else if role == "branch_admin" then
      var keep := (t: Transaction) => t.branchLocation == branch;
      FilterKeepsOrder(txs, keep);
      FilterCounts(txs, keep);
      Filter(txs, keep)
    else if role == "agent" then
      var keep := (t: Transaction) => t.branchLocation == branch && t.status == Assigned && t.paymentMethod == CodAgent;
      FilterKeepsOrder(txs, keep);
      FilterCounts(txs, keep);
      Filter(txs, keep)
    else
      []
  }

  /** The response of `GET /api/orders/my-orders/:userId`. */
  datatype MyOrders = MyOrders(buying: seq<Transaction>, selling: seq<Transaction>)

  /** The orders a user placed as buyer and those they received as seller,
      each newest first. */
  function OrdersOf(txs: seq<Transaction>, userId: Id): (r: MyOrders)
    ensures forall t :: t in r.buying <==> t in txs && t.buyer == userId
    ensures forall t :: t in r.selling <==> t in txs && t.seller == userId
    ensures forall t :: multiset(r.buying)[t] == if t.buyer == userId then multiset(txs)[t] else 0
    ensures forall t :: multiset(r.selling)[t] == if t.seller == userId then multiset(txs)[t] else 0
    ensures NewestFirst(r.buying, TransactionCreatedAt) && NewestFirst(r.selling, TransactionCreatedAt)
  {
    var buying := SelectNewestFirst(txs, (t: Transaction) => t.buyer == userId, TransactionCreatedAt);
    var selling := SelectNewestFirst(txs, (t: Transaction) => t.seller == userId, TransactionCreatedAt);
    MyOrders(buying, selling)
  }

  /** One row of `GET /api/report/root`: a branch, the sum of `totalPrice` over
      its completed orders and how many there are. */
  datatype BranchTotal = BranchTotal(branch: string, total: real, count: nat)

  /** The completed orders of branch `b`, in store order: what one report row summarises. */
  function CompletedAt(txs: seq<Transaction>, b: string): seq<Transaction>
  {
    Filter(txs, (t: Transaction) => IsCompleted(t) && t.branchLocation == b)
  }

  function SumTotals(txs: seq<Transaction>): real
  {
    if txs == [] then 0.0 else SumTotals(txs[..|txs| - 1]) + txs[|txs| - 1].totalPrice
  }

  function SumCounts(groups: seq<BranchTotal>): int
  {
    if groups == [] then 0 else SumCounts(groups[..|groups| - 1]) + groups[|groups| - 1].count
  }

  function SumGroupTotals(groups: seq<BranchTotal>): real
  {
    if groups == [] then 0.0 else SumGroupTotals(groups[..|groups| - 1]) + groups[|groups| - 1].total
  }

  /** No branch has two rows. */
  ghost predicate DistinctBranches(groups: seq<BranchTotal>)
  {
    forall i, j :: 0 <= i < j < |groups| ==> groups[i].branch != groups[j].branch
  }

  function Branches(groups: seq<BranchTotal>): set<string>
  {
    set g | g in groups :: g.branch
  }

  /** The row `g` holds the count and the summed `totalPrice` of exactly the
      completed orders of its branch in `txs`. */
  ghost predicate RowMatches(g: BranchTotal, txs: seq<Transaction>)
  {
    g.count == |CompletedAt(txs, g.branch)| && g.total == SumTotals(CompletedAt(txs, g.branch))
  }

  /** `groups` is a correct report of `txs`: one row per branch, each row right,
      and a row for a branch exactly when that branch has a completed order. */
  ghost predicate Summarises(groups: seq<BranchTotal>, txs: seq<Transaction>)
  {
    && DistinctBranches(groups)
    && (forall i :: 0 <= i < |groups| ==> RowMatches(groups[i], txs))
    && (forall b :: b in Branches(groups) <==> CompletedAt(txs, b) != [])
  }

  /** The index of the row of branch `b`, if it has one. */
  function RowOf(groups: seq<BranchTotal>, b: string): Option<nat>
  {
    IndexWhere(groups, (g: BranchTotal) => g.branch == b)
  }

  /** The `$group` stage taking in one more transaction: a completed one is added
      to its branch's row, or opens a row; any other is skipped by `$match`. */
  function Tally(groups: seq<BranchTotal>, t: Transaction): seq<BranchTotal>
  {
    if !IsCompleted(t) then groups
    else
      match RowOf(groups, t.branchLocation)
      case None => groups + [BranchTotal(t.branchLocation, t.totalPrice, 1)]
      case Some(k) => groups[k := BranchTotal(t.branchLocation, groups[k].total + t.totalPrice, groups[k].count + 1)]
  }

  /** The report, accumulated over the store in order; rows appear in the order
      their branch first completes an order. */
  function Report(txs: seq<Transaction>): (groups: seq<BranchTotal>)
    ensures forall g :: g in groups ==> g.count >= 1
  {
    if txs == [] then [] else Tally(Report(txs[..|txs| - 1]), txs[|txs| - 1])
  }

  lemma CompletedAtSnoc(pre: seq<Transaction>, t: Transaction, b: string)
    ensures CompletedAt(pre + [t], b) ==
      if t.status == Completed && t.branchLocation == b then CompletedAt(pre, b) + [t] else CompletedAt(pre, b)
  {
    FilterConcat(pre, [t], (t': Transaction) => IsCompleted(t') && t'.branchLocation == b);
  }

  lemma SumTotalsSnoc(s: seq<Transaction>, t: Transaction)
    ensures SumTotals(s + [t]) == SumTotals(s) + t.totalPrice
  {
    assert (s + [t])[..|s|] == s;
  }

  lemma BranchesSnoc(groups: seq<BranchTotal>, row: BranchTotal)
    ensures Branches(groups + [row]) == Branches(groups) + {row.branch}
  {
    var after := groups + [row];
    forall b ensures b in Branches(after) <==> b in Branches(groups) + {row.branch} {
      if b in Branches(after) {
        var g :| g in after && g.branch == b;
        if g != row { assert g in groups; }
      }
      if b in Branches(groups) {
        var g :| g in groups && g.branch == b;
        assert g in after;
      }
      assert row in after;
    }
  }

  lemma BranchesUpdate(groups: seq<BranchTotal>, k: nat, row: BranchTotal)
    requires k < |groups| && row.branch == groups[k].branch
    ensures Branches(groups[k := row]) == Branches(groups)
  {
    var after := groups[k := row];
    forall b ensures b in Branches(after) <==> b in Branches(groups) {
      if b in Branches(after) {
        var g :| g in after && g.branch == b;
        var i :| 0 <= i < |after| && after[i] == g;
        assert groups[i] in groups;
      }
      if b in Branches(groups) {
        var g :| g in groups && g.branch == b;
        var i :| 0 <= i < |groups| && groups[i] == g;
        assert after[i] in after;
      }
    }
  }

  lemma TallyAt(groups: seq<BranchTotal>, t: Transaction, k: nat)
    requires t.status == Completed && RowOf(groups, t.branchLocation) == Some(k)
    ensures k < |groups| && groups[k].branch == t.branchLocation
    ensures Tally(groups, t) == groups[k := BranchTotal(t.branchLocation, groups[k].total + t.totalPrice, groups[k].count + 1)]
  {
  }

  /** A transaction that is not completed leaves a correct report correct. */
  lemma TallySkips(groups: seq<BranchTotal>, pre: seq<Transaction>, t: Transaction)
    requires Summarises(groups, pre) && t.status != Completed
    ensures Summarises(Tally(groups, t), pre + [t])
  {
    forall b ensures CompletedAt(pre + [t], b) == CompletedAt(pre, b) {
      CompletedAtSnoc(pre, t, b);
    }
  }

  lemma TallyAtNone(groups: seq<BranchTotal>, t: Transaction)
    requires t.status == Completed && RowOf(groups, t.branchLocation).None?
    ensures t.branchLocation !in Branches(groups)
    ensures Tally(groups, t) == groups + [BranchTotal(t.branchLocation, t.totalPrice, 1)]
  {
  }

  /** Opening a row for a branch that had no completed order keeps every row
      right. */
  lemma RowsAfterOpen(groups: seq<BranchTotal>, pre: seq<Transaction>, t: Transaction)
    requires forall i :: 0 <= i < |groups| ==> RowMatches(groups[i], pre)
    requires t.status == Completed && CompletedAt(pre, t.branchLocation) == []
    requires forall i :: 0 <= i < |groups| ==> groups[i].branch != t.branchLocation
    ensures var after := groups + [BranchTotal(t.branchLocation, t.totalPrice, 1)];
      forall i :: 0 <= i < |after| ==> RowMatches(after[i], pre + [t])
  {
    var bt := t.branchLocation;
    var after := groups + [BranchTotal(bt, t.totalPrice, 1)];
    forall i | 0 <= i < |after| ensures RowMatches(after[i], pre + [t]) {
      CompletedAtSnoc(pre, t, after[i].branch);
      if i == |groups| {
        assert [] + [t] == [t];
        SumTotalsSnoc([], t);
      } else {
        assert RowMatches(groups[i], pre);
      }
    }
  }

  /** A completed transaction of a branch without a row opens a row for it. */
  lemma TallyOpens(groups: seq<BranchTotal>, pre: seq<Transaction>, t: Transaction)
    requires Summarises(groups, pre) && t.status == Completed
    requires RowOf(groups, t.branchLocation).None?
    ensures Summarises(Tally(groups, t), pre + [t])
  {
    var bt := t.branchLocation;
    TallyAtNone(groups, t);
    var after := Tally(groups, t);
    assert CompletedAt(pre, bt) == [];
    assert forall i :: 0 <= i < |groups| ==> groups[i].branch != bt by {
      forall i | 0 <= i < |groups| ensures groups[i].branch != bt {
        assert groups[i] in groups;
      }
    }
    RowsAfterOpen(groups, pre, t);
    BranchesSnoc(groups, after[|groups|]);
    forall b ensures b in Branches(after) <==> CompletedAt(pre + [t], b) != [] {
      CompletedAtSnoc(pre, t, b);
    }
  }

  /** Adding a completed order of the branch of row `k` to that row keeps every
      row right. */
  lemma RowsAfterBump(groups: seq<BranchTotal>, pre: seq<Transaction>, t: Transaction, k: nat)
    requires DistinctBranches(groups) && forall i :: 0 <= i < |groups| ==> RowMatches(groups[i], pre)
    requires t.status == Completed && k < |groups| && groups[k].branch == t.branchLocation
    ensures var after := groups[k := BranchTotal(t.branchLocation, groups[k].total + t.totalPrice, groups[k].count + 1)];
      forall i :: 0 <= i < |after| ==> RowMatches(after[i], pre + [t])
  {
    var bt := t.branchLocation;
    var after := groups[k := BranchTotal(bt, groups[k].total + t.totalPrice, groups[k].count + 1)];
    forall i | 0 <= i < |after| ensures RowMatches(after[i], pre + [t]) {
      assert RowMatches(groups[i], pre);
      CompletedAtSnoc(pre, t, after[i].branch);
      if i == k {
        SumTotalsSnoc(CompletedAt(pre, bt), t);
      } else {
        assert after[i] == groups[i] && groups[i].branch != bt;
      }
    }
  }

  /** A completed transaction of a branch that has row `k` is added to that row. */
  lemma TallyBumps(groups: seq<BranchTotal>, pre: seq<Transaction>, t: Transaction, k: nat)
    requires Summarises(groups, pre) && t.status == Completed
    requires RowOf(groups, t.branchLocation) == Some(k)
    ensures Summarises(Tally(groups, t), pre + [t])
  {
    var bt := t.branchLocation;
    TallyAt(groups, t, k);
    var after := Tally(groups, t);
    BranchesUpdate(groups, k, after[k]);
    assert DistinctBranches(after) by {
      forall i, j | 0 <= i < j < |after| ensures after[i].branch != after[j].branch {
        assert after[i].branch == groups[i].branch && after[j].branch == groups[j].branch;
      }
    }
    RowsAfterBump(groups, pre, t, k);
    forall b ensures b in Branches(after) <==> CompletedAt(pre + [t], b) != [] {
      CompletedAtSnoc(pre, t, b);
    }
  }

  /** The report of any store is correct: every row is the count and the sum of
      `totalPrice` of exactly the completed orders of its branch, a branch has a
      row if and only if it has a completed order, and no branch has two rows. */
  lemma {:induction false} ReportGroupsCompletedByBranch(txs: seq<Transaction>)
    ensures Summarises(Report(txs), txs)
  {
    if txs == [] {
      assert Branches([]) == {};
    } else {
      var pre, t := txs[..|txs| - 1], txs[|txs| - 1];
      assert txs == pre + [t];
      ReportGroupsCompletedByBranch(pre);
      var before := Report(pre);
      if t.status != Completed {
        TallySkips(before, pre, t);
      } else {
        match RowOf(before, t.branchLocation)
        case None => TallyOpens(before, pre, t);
        case Some(k) => TallyBumps(before, pre, t, k);
      }
    }
  }

  /** Bumping one row by one order of amount `amt` raises the count total by one
      and the money total by `amt`. */
  lemma {:induction false} SumsAfterBump(groups: seq<BranchTotal>, k: nat, amt: real)
    requires k < |groups|
    ensures SumCounts(groups[k := BranchTotal(groups[k].branch, groups[k].total + amt, groups[k].count + 1)]) == SumCounts(groups) + 1
    ensures SumGroupTotals(groups[k := BranchTotal(groups[k].branch, groups[k].total + amt, groups[k].count + 1)]) == SumGroupTotals(groups) + amt
  {
    var g' := groups[k := BranchTotal(groups[k].branch, groups[k].total + amt, groups[k].count + 1)];
    var n := |groups| - 1;
    if k < n {
      SumsAfterBump(groups[..n], k, amt);
      assert g'[..n] == groups[..n][k := BranchTotal(groups[k].branch, groups[k].total + amt, groups[k].count + 1)];
    } else {
      assert g'[..n] == groups[..n];
    }
  }

  /** Taking in one transaction adds one to the counts and its `totalPrice` to
      the totals exactly when it is completed. */
  lemma TallySums(groups: seq<BranchTotal>, t: Transaction)
    ensures SumCounts(Tally(groups, t)) == SumCounts(groups) + (if IsCompleted(t) then 1 else 0)
    ensures SumGroupTotals(Tally(groups, t)) == SumGroupTotals(groups) + (if IsCompleted(t) then t.totalPrice else 0.0)
  {
    if t.status == Completed {
      match RowOf(groups, t.branchLocation)
      case None =>
        var row := BranchTotal(t.branchLocation, t.totalPrice, 1);
        assert (groups + [row])[..|groups|] == groups;
      case Some(k) =>
        assert groups[k].branch == t.branchLocation;
        SumsAfterBump(groups, k, t.totalPrice);
    }
  }

  /** Appending one transaction to the store changes the report's sums as
      taking it in with `Tally` does. */
  lemma ReportSnoc(pre: seq<Transaction>, t: Transaction)
    ensures SumCounts(Report(pre + [t])) == SumCounts(Report(pre)) + (if IsCompleted(t) then 1 else 0)
    ensures SumGroupTotals(Report(pre + [t])) == SumGroupTotals(Report(pre)) + (if IsCompleted(t) then t.totalPrice else 0.0)
  {
    assert (pre + [t])[..|pre|] == pre;
    TallySums(Report(pre), t);
  }

  /** The report accounts for every completed order exactly once: the counts add
      up to the number of completed orders and the totals to their summed
      `totalPrice`. */
  lemma {:induction false} ReportAccountsForAllCompleted(txs: seq<Transaction>)
    ensures SumCounts(Report(txs)) == |Filter(txs, IsCompleted)|
    ensures SumGroupTotals(Report(txs)) == SumTotals(Filter(txs, IsCompleted))
  {
    if txs != [] {
      var pre, t := txs[..|txs| - 1], txs[|txs| - 1];
      assert txs == pre + [t];
      ReportAccountsForAllCompleted(pre);
      ReportSnoc(pre, t);
      FilterSnoc(pre, t, IsCompleted);
      if IsCompleted(t) {
        SumTotalsSnoc(Filter(pre, IsCompleted), t);
      } else {
        assert Filter(pre, IsCompleted) + [] == Filter(pre, IsCompleted);
      }
    }
  }

  /** A booked product drops out of every listing. */
  lemma BookedProductNotListed(ps: seq<Product>, id: Id, branch: Option<string>)
    ensures forall p :: p in ProductListing(SetProductStatus(ps, id, Booked), branch) ==> p.id != id
  {
  }

  /** A released product is listed again (without a branch condition). */
  lemma ReleasedProductListed(ps: seq<Product>, id: Id)
    requires exists p :: p in ps && p.id == id
    ensures exists p :: p in ProductListing(SetProductStatus(ps, id, Available), None) && p.id == id
  {
  }
}
