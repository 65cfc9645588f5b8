/** The creator dashboard's list logic: the status and token filters and
    the sort applied to the creator's drops, the pages of six, the two
    summary figures, and which action a drop card offers. */
module DropDashboard {
  import Sorting
  import opened Program

  const PAGE_SIZE: nat := 6

  datatype StatusFilter = AllStatuses | Active | Ended | Canceled
  datatype TokenFilter = AllTokens | Sol | Spl
  datatype SortOption = Newest | Oldest | MostClaimed

  predicate StatusMatches(f: StatusFilter, d: DropInfo) {
    match f
    case AllStatuses => true
    case Active => d.isActive
    case Ended => d.isEnded
    case Canceled => d.isCanceled
  }

  predicate TokenMatches(f: TokenFilter, d: DropInfo) {
    match f
    case AllTokens => true
    case Sol => d.isNativeSol
    case Spl => !d.isNativeSol
  }

  // ---------------------------------------------------------------------------
  // Filtering and ordering

  /** `Array.prototype.filter`: the elements satisfying p, in their order. */
  function Keep<T(!new)>(s: seq<T>, p: T -> bool): (r: seq<T>)
    ensures |r| <= |s|
    ensures forall i :: 0 <= i < |r| ==> p(r[i])
    ensures forall x :: multiset(r)[x] == if p(x) then multiset(s)[x] else 0
  {
    if s == [] then []
    else
      assert s == [s[0]] + s[1..];
      var rest := Keep(s[1..], p);
      if p(s[0]) then [s[0]] + rest else rest
  }

  /** Filtering with predicates that agree everywhere gives the same list. */
  lemma {:induction false} KeepSame<T(!new)>(s: seq<T>, p: T -> bool, q: T -> bool)
    requires forall x :: p(x) == q(x)
    ensures Keep(s, p) == Keep(s, q)
  {
    if s != [] {
      KeepSame(s[1..], p, q);
    }
  }

  /** Filtering by p and then by q is filtering once by both. */
  lemma {:induction false} KeepTwice<T(!new)>(s: seq<T>, p: T -> bool, q: T -> bool, both: T -> bool)
    requires forall x :: both(x) == (p(x) && q(x))
    ensures Keep(Keep(s, p), q) == Keep(s, both)
  {
    if s != [] {
      KeepTwice(s[1..], p, q, both);
    }
  }

  /** A predicate that holds everywhere keeps the whole list. */
  lemma {:induction false} KeepAll<T(!new)>(s: seq<T>, p: T -> bool)
    requires forall x :: p(x)
    ensures Keep(s, p) == s
  {
    if s != [] {
      KeepAll(s[1..], p);
    }
  }

  /** `Array.prototype.reverse`. */
  function Reverse<T>(s: seq<T>): (r: seq<T>)
    ensures |r| == |s|
    ensures forall i :: 0 <= i < |s| ==> r[i] == s[|s| - 1 - i]
  {
    if s == [] then [] else Reverse(s[1..]) + [s[0]]
  }

  lemma {:induction false} ReverseSameElements<T>(s: seq<T>)
    ensures multiset(Reverse(s)) == multiset(s)
  {
    if s != [] {
      ReverseSameElements(s[1..]);
      assert s == [s[0]] + s[1..];
    }
  }

  /** The drops both filters let through, in the fetched order. */
  function Visible(drops: seq<DropInfo>, status: StatusFilter, token: TokenFilter): seq<DropInfo> {
    Keep(drops, d => StatusMatches(status, d) && TokenMatches(token, d))
  }

  /** The three status `if`s leave the drops the status filter matches. */
  lemma StatusStep(drops: seq<DropInfo>, status: StatusFilter)
    ensures Keep(drops, d => StatusMatches(status, d)) ==
      match status
      case Active => Keep(drops, (d: DropInfo) => d.isActive)
      case Ended => Keep(drops, (d: DropInfo) => d.isEnded)
      case Canceled => Keep(drops, (d: DropInfo) => d.isCanceled)
      case AllStatuses => drops
  {
    match status
    case Active => KeepSame(drops, d => StatusMatches(status, d), (d: DropInfo) => d.isActive);
    case Ended => KeepSame(drops, d => StatusMatches(status, d), (d: DropInfo) => d.isEnded);
    case Canceled => KeepSame(drops, d => StatusMatches(status, d), (d: DropInfo) => d.isCanceled);
    case AllStatuses => KeepAll(drops, d => StatusMatches(status, d));
  }

  /** The two token `if`s leave the drops the token filter matches. */
  lemma TokenStep(drops: seq<DropInfo>, token: TokenFilter)
    ensures Keep(drops, d => TokenMatches(token, d)) ==
      match token
      case Sol => Keep(drops, (d: DropInfo) => d.isNativeSol)
      case Spl => Keep(drops, (d: DropInfo) => !d.isNativeSol)
      case AllTokens => drops
  {
    match token
    case Sol => KeepSame(drops, d => TokenMatches(token, d), (d: DropInfo) => d.isNativeSol);
    case Spl => KeepSame(drops, d => TokenMatches(token, d), (d: DropInfo) => !d.isNativeSol);
    case AllTokens => KeepAll(drops, d => TokenMatches(token, d));
  }

  /** Filtering by status and then by token is the visible list. */
  lemma FiltersCompose(drops: seq<DropInfo>, status: StatusFilter, token: TokenFilter)
    ensures Keep(Keep(drops, d => StatusMatches(status, d)), d => TokenMatches(token, d))
      == Visible(drops, status, token)
  {
    KeepTwice(drops, d => StatusMatches(status, d), d => TokenMatches(token, d),
              d => StatusMatches(status, d) && TokenMatches(token, d));
  }

  /** A drop is visible exactly when it is among the drops and passes both filters. */
  lemma VisibleMembers(drops: seq<DropInfo>, status: StatusFilter, token: TokenFilter, list: seq<DropInfo>)
    requires multiset(list) == multiset(Visible(drops, status, token))
    ensures forall x :: x in list <==> x in drops && StatusMatches(status, x) && TokenMatches(token, x)
  {
    forall x ensures x in list <==> x in drops && StatusMatches(status, x) && TokenMatches(token, x) {
      assert x in list <==> multiset(list)[x] > 0;
      assert x in drops <==> multiset(drops)[x] > 0;
    }
  }

  /** The `filtered` memo: a copy of the drops narrowed by the status filter
      and then the token filter, then sorted by claims or reversed. */
  method FilterDrops(drops: seq<DropInfo>, status: StatusFilter, token: TokenFilter, sort: SortOption)
    returns (list: seq<DropInfo>)
    ensures forall x :: x in list <==> x in drops && StatusMatches(status, x) && TokenMatches(token, x)
    ensures multiset(list) == multiset(Visible(drops, status, token))
    ensures sort == Newest ==> list == Visible(drops, status, token)
    ensures sort == Oldest ==> list == Reverse(Visible(drops, status, token))
    ensures sort == MostClaimed ==>
      forall i, j :: 0 <= i < j < |list| ==> list[i].currentClaims >= list[j].currentClaims
  {
    list := drops;
    if status == Active { list := Keep(list, (d: DropInfo) => d.isActive); }
    if status == Ended { list := Keep(list, (d: DropInfo) => d.isEnded); }
    if status == Canceled { list := Keep(list, (d: DropInfo) => d.isCanceled); }
    StatusStep(drops, status);
    ghost var byStatus := list;
    if token == Sol { list := Keep(list, (d: DropInfo) => d.isNativeSol); }
    if token == Spl { list := Keep(list, (d: DropInfo) => !d.isNativeSol); }
    TokenStep(byStatus, token);
    FiltersCompose(drops, status, token);
    if sort == MostClaimed {
      list := Sorting.SortByKey(list, (d: DropInfo) => -(d.currentClaims as int));
      assert Sorting.SortedByKey(list, (d: DropInfo) => -(d.currentClaims as int));
    }
    if sort == Oldest {
      ReverseSameElements(list);
      list := Reverse(list);
    }
    VisibleMembers(drops, status, token, list);
  }

  // ---------------------------------------------------------------------------
  // Pages

  /** `Math.ceil(n / PAGE_SIZE)`: the fewest pages of six that hold n items. */
  function TotalPages(n: nat): (p: nat)
    ensures n <= p * PAGE_SIZE
    ensures p == 0 || (p - 1) * PAGE_SIZE < n
  {
    (n + PAGE_SIZE - 1) / PAGE_SIZE
  }

  /** `list.slice((page - 1) * PAGE_SIZE, page * PAGE_SIZE)`, with slice's
      clamping of both ends to the length. */
  function Paginated<T>(list: seq<T>, page: nat): (r: seq<T>)
    requires page >= 1
    ensures |r| <= PAGE_SIZE
    ensures forall i :: 0 <= i < |r| ==> (page - 1) * PAGE_SIZE + i < |list| && r[i] == list[(page - 1) * PAGE_SIZE + i]
  {
    var start := (page - 1) * PAGE_SIZE;
    var end := if page * PAGE_SIZE <= |list| then page * PAGE_SIZE else |list|;
    if start >= |list| then [] else list[start..end]
  }

  /** A page has items exactly when its number is within the page count. */
  lemma PageNonEmpty<T>(list: seq<T>, page: nat)
    requires page >= 1
    ensures |Paginated(list, page)| > 0 <==> page <= TotalPages(|list|)
  {
    var p := TotalPages(|list|);
    if page <= p {
      assert (page - 1) * PAGE_SIZE <= (p - 1) * PAGE_SIZE;
    } else {
      assert (page - 1) * PAGE_SIZE >= p * PAGE_SIZE;
    }
  }

  /** Every item is on exactly the page its position says, so paging through
      shows each filtered drop once. */
  lemma ItemOnItsPage<T>(list: seq<T>, i: nat)
    requires i < |list|
    ensures var page := i / PAGE_SIZE + 1;
      page <= TotalPages(|list|) && i % PAGE_SIZE < |Paginated(list, page)|
      && Paginated(list, page)[i % PAGE_SIZE] == list[i]
  {
    var page := i / PAGE_SIZE + 1;
    assert i == (page - 1) * PAGE_SIZE + i % PAGE_SIZE;
    PageNonEmpty(list, page);
  }

  /** The previous button: one page back, never below the first page. */
  function PrevPage(page: nat): (p: nat)
    requires page >= 1
    ensures 1 <= p <= page
    ensures page > 1 ==> p == page - 1
    ensures page == 1 ==> p == 1
  {
    if page - 1 > 1 then page - 1 else 1
  }

  /** The next button: one page on, never past the last page. The page is
      reset only when a filter or the sort changes, so after a cancel or a
      close reloads a shorter list it can lie past the last page, and then
      the button goes back to the last page. */
  function NextPage(page: nat, totalPages: nat): (p: nat)
    requires page >= 1 && totalPages >= 1
    ensures 1 <= p <= totalPages
    ensures page < totalPages ==> p == page + 1
    ensures page >= totalPages ==> p == totalPages
  {
    if totalPages < page + 1 then totalPages else page + 1
  }

  /** Within the page range the two buttons undo each other. */
  lemma PrevUndoesNext(page: nat, totalPages: nat)
    requires 1 <= page <= totalPages
    ensures page < totalPages ==> PrevPage(NextPage(page, totalPages)) == page
    ensures page > 1 ==> NextPage(PrevPage(page), totalPages) == page
  {
  }

  // ---------------------------------------------------------------------------
  // Summary figures

  /** `drops.filter(d => d.isActive).length`. */
  function ActiveCount(drops: seq<DropInfo>): (n: nat)
    ensures n <= |drops|
  {
    |Keep(drops, (d: DropInfo) => d.isActive)|
  }

  /** `drops.reduce((s, d) => s + d.currentClaims, 0)`. */
  function TotalClaims(drops: seq<DropInfo>): (r: nat)
    ensures |drops| == 1 ==> r == drops[0].currentClaims
    ensures r == 0 <==> forall i :: 0 <= i < |drops| ==> drops[i].currentClaims == 0
  {
    if drops == [] then 0 else drops[0].currentClaims + TotalClaims(drops[1..])
  }

  /** The "Active" figure is the number of drops the Active tab lists under
      the all-tokens filter. */
  lemma ActiveCountMatchesTab(drops: seq<DropInfo>)
    ensures ActiveCount(drops) == |Visible(drops, Active, AllTokens)|
  {
    KeepSame(drops, (d: DropInfo) => d.isActive, d => StatusMatches(Active, d) && TokenMatches(AllTokens, d));
  }

  /** The claims total adds up over any split of the list. */
  lemma {:induction false} TotalClaimsAppend(a: seq<DropInfo>, b: seq<DropInfo>)
    ensures TotalClaims(a + b) == TotalClaims(a) + TotalClaims(b)
  {
    if a == [] {
      assert a + b == b;
    } else {
      assert (a + b)[1..] == a[1..] + b;
      TotalClaimsAppend(a[1..], b);
    }
  }

  /** The claims total counts every drop's claims: it is at least each one. */
  lemma {:induction false} TotalClaimsBoundsEach(drops: seq<DropInfo>, i: nat)
    requires i < |drops|
    ensures drops[i].currentClaims <= TotalClaims(drops)
  {
    if i > 0 {
      TotalClaimsBoundsEach(drops[1..], i - 1);
    }
  }

  // ---------------------------------------------------------------------------
  // Card actions

  /** The cancel-and-refund button: only on an active drop with claims left,
      which for a drop read from its account is every active drop. */
  predicate ShowCancel(d: DropInfo): (shown: bool)
    ensures shown ==> d.isActive
    ensures DecodedShape(d) ==> (shown <==> d.isActive)
  {
    d.isActive && d.remainingClaims > 0
  }

  /** The close-and-reclaim-rent button: on an ended or canceled drop, which
      for a drop read from its account is every drop that is not active. */
  predicate ShowClose(d: DropInfo): (shown: bool)
    ensures DecodedShape(d) ==> (shown <==> !d.isActive)
  {
    d.isEnded || d.isCanceled
  }

  /** For a drop read from its account, a card offers exactly one of the two
      actions: cancel while it is active, close once it has ended or was
      canceled. */
  lemma OneActionPerCard(address: string, stored: StoredDrop)
    ensures var d := WithDerived(address, stored);
      && (ShowCancel(d) <==> d.isActive)
      && (ShowClose(d) <==> !d.isActive)
  {
  }
}
