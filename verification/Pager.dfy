/** The statistics page: its global state and its pager (`src/frontend/stats.js`). */
module Pager {
  import opened Cars
  import opened Listing
  import opened Sorting
  import opened Stats

  const PAGE_SIZE: int := 20

  /** A button calls `loadCars(target)`. */
  datatype Button = Button(target: int, enabled: bool)

  datatype Controls = Hidden | Visible(page: int, pages: int, prev: Button, next: Button)

  /** `allCars`, `totalCars`, `currentOffset` and the rendered pagination. */
  datatype View = View(cars: seq<Car>, total: nat, offset: int, controls: Controls)

  /** `Math.ceil(total / PAGE_SIZE)` */
  function Pages(total: nat): nat {
    (total + PAGE_SIZE - 1) / PAGE_SIZE
  }

  function Render(offset: int, total: nat): Controls {
    if Pages(total) <= 1 then Hidden
    else Visible(offset / PAGE_SIZE + 1, Pages(total), Button(offset - PAGE_SIZE, offset != 0),
                 Button(offset + PAGE_SIZE, offset + PAGE_SIZE < total))
  }

  /** What a successful `loadCars(offset)` leaves. */
  function Loaded(offset: int, total: nat, cars: seq<Car>): View {
    var all := if total != 0 then total else |cars|;
    View(cars, all, offset, Render(offset, all))
  }

  class StatsPage {
    var allCars: seq<Car>
    var totalCars: nat
    var currentOffset: int
    var controls: Controls

    function State(): View
      reads this
    {
      View(allCars, totalCars, currentOffset, controls)
    }

    constructor ()
      ensures State() == View([], 0, 0, Hidden) == OPENED.page
    {
      allCars, totalCars, currentOffset, controls := [], 0, 0, Hidden;
    }

    /** The part of `loadCars` after the answer: `data` is the answer, or None for a failure, which
        empties the list and leaves everything else, the displayed list included. */
    method FinishLoad(offset: int, data: Option<(nat, seq<Car>)>, filters: Filters, sortBy: SortBy)
      returns (displayed: Option<seq<Car>>)
      modifies this
      ensures State() == if data.Some? then Loaded(offset, data.value.0, data.value.1) else old(State()).(cars := [])
      ensures displayed == if data.Some? then Some(ShownList(data.value.1, filters, sortBy)) else None
      ensures data.Some? ==>
        && allCars == data.value.1 && currentOffset == offset
        && totalCars == if data.value.0 != 0 then data.value.0 else |allCars|
      ensures data.None? ==>
        && allCars == [] && currentOffset == old(currentOffset) && totalCars == old(totalCars) && controls == old(controls)
    {
      if data.None? {
        allCars := [];
        return None;
      }
      allCars := data.value.1;
      totalCars := if data.value.0 != 0 then data.value.0 else |allCars|;
      currentOffset := offset;
      var shown := ApplyFiltersAndSort(filters, sortBy);
      RenderPagination();
      return Some(shown);
    }

    method RenderPagination()
      modifies this`controls
      ensures controls == Render(currentOffset, totalCars)
    {
      var totalPages := Pages(totalCars);
      var currentPage := currentOffset / PAGE_SIZE + 1;
      if totalPages <= 1 {
        controls := Hidden;
        return;
      }
      controls := Visible(currentPage, totalPages, Button(currentOffset - PAGE_SIZE, currentOffset != 0),
                          Button(currentOffset + PAGE_SIZE, !(currentOffset + PAGE_SIZE >= totalCars)));
    }

    /** Filters a copy and sorts it; the page's own list stays as it is. */
    method ApplyFiltersAndSort(filters: Filters, sortBy: SortBy) returns (filtered: seq<Car>)
      ensures filtered == ShownList(allCars, filters, sortBy)
      ensures InOrder(sortBy, filtered)
      ensures forall c :: c in filtered <==>
        && c in allCars && (filters.make == "" || c.make == filters.make)
        && (filters.model == "" || c.model == filters.model) && (filters.color == "" || c.color == filters.color)
    {
      filtered := allCars;
      if filters.make != "" { filtered := Keep(filtered, ByMake, filters.make); }
      if filters.model != "" { filtered := Keep(filtered, ByModel, filters.model); }
      if filters.color != "" { filtered := Keep(filtered, ByColor, filters.color); }
      FiltersMatch(allCars, filters);
      if sortBy != Unsorted {
        filtered := StableSort(filtered, SortKey(sortBy));
      } else {
        SortUnsorted(filtered);
      }
      ShownInOrder(allCars, filters, sortBy);
      ShownListMembers(allCars, filters, sortBy);
    }
  }

  /** The controls in figures: twenty cars a page. */
  lemma RenderIs(offset: nat, total: nat)
    ensures var controls := Render(offset, total);
      && (controls.Hidden? <==> total <= 20)
      && (controls.Visible? ==>
            && (controls.page - 1) * 20 <= offset < controls.page * 20
            && (controls.pages - 1) * 20 < total <= controls.pages * 20
            && controls.prev.target == offset - 20 && (controls.prev.enabled <==> offset > 0)
            && controls.next.target == offset + 20 && (controls.next.enabled <==> offset + 20 < total))
  {
  }

  // ----- Runs of the page -----

  /** The page with the offsets of the loads that have not been answered. */
  datatype Session = Session(page: View, pending: multiset<int>)

  /** `Refresh` is also the first load; `Reload` follows a delete or a quick edit. Answers come in any
      order, and the table may be changed by others at any time, so an answer may say anything. */
  datatype Action = Refresh | Prev | Next | Reload | Answered(offset: int, total: nat, cars: seq<Car>) | Failed(offset: int)

  const OPENED := Session(View([], 0, 0, Hidden), multiset{})

  function Act(s: Session, a: Action): Session {
    match a
    case Refresh => s.(pending := s.pending + multiset{0})
    case Prev =>
      if s.page.controls.Visible? && s.page.controls.prev.enabled then
        s.(pending := s.pending + multiset{s.page.controls.prev.target})
      else s
    case Next =>
      if s.page.controls.Visible? && s.page.controls.next.enabled then
        s.(pending := s.pending + multiset{s.page.controls.next.target})
      else s
    case Reload => s.(pending := s.pending + multiset{s.page.offset})
    case Answered(offset, total, cars) =>
      if offset in s.pending then Session(Loaded(offset, total, cars), s.pending - multiset{offset}) else s
    case Failed(offset) =>
      if offset in s.pending then Session(s.page.(cars := []), s.pending - multiset{offset}) else s
  }

  function ActAll(s: Session, actions: seq<Action>): Session
    decreases |actions|
  {
    if actions == [] then s else ActAll(Act(s, actions[0]), actions[1..])
  }

  predicate PageStart(offset: int) {
    offset >= 0 && offset % PAGE_SIZE == 0
  }

  ghost predicate Sound(s: Session) {
    && PageStart(s.page.offset)
    && (forall offset | offset in s.pending :: PageStart(offset))
    && (s.page.controls.Visible? ==>
          s.page.controls.prev == Button(s.page.offset - PAGE_SIZE, s.page.offset != 0)
          && s.page.controls.next.target == s.page.offset + PAGE_SIZE)
  }

  lemma LoadedSound(offset: int, total: nat, cars: seq<Car>)
    ensures var controls := Loaded(offset, total, cars).controls;
      controls.Visible? ==>
        controls.prev == Button(offset - PAGE_SIZE, offset != 0) && controls.next.target == offset + PAGE_SIZE
  {
  }

  lemma SoundAct(s: Session, a: Action)
    requires Sound(s)
    ensures Sound(Act(s, a))
  {
    if a.Answered? {
      LoadedSound(a.offset, a.total, a.cars);
    }
  }

  /** In every run of the page, with answers in any order and of any content, every offset that is
      ever requested is a non-negative multiple of the page size. */
  lemma {:induction false} RequestsAreAligned(actions: seq<Action>, s: Session)
    requires Sound(s)
    ensures Sound(ActAll(s, actions))
    decreases |actions|
  {
    if actions == [] {
    } else {
      SoundAct(s, actions[0]);
      RequestsAreAligned(actions[1..], Act(s, actions[0]));
    }
  }

  lemma RunsAreAligned(actions: seq<Action>, offset: int)
    requires offset in ActAll(OPENED, actions).pending
    ensures offset >= 0 && offset % PAGE_SIZE == 0
  {
    RequestsAreAligned(actions, OPENED);
  }

  /** After a load, the page number is in range exactly when the offset is below the total, and Next
      is offered exactly below the last page. */
  lemma PageInRange(offset: int, total: nat, cars: seq<Car>)
    requires PageStart(offset)
    ensures var controls := Loaded(offset, total, cars).controls;
      controls.Visible? ==>
        && (1 <= controls.page <= controls.pages <==> offset < Loaded(offset, total, cars).total)
        && (controls.next.enabled <==> controls.page < controls.pages)
  {
  }

  /** When others have emptied the page that is loaded again: the user is left with no car and no
      control, not even Prev, exactly when the rest of the table fits on the first page; otherwise
      Prev is offered. */
  lemma StrandedPage(order: seq<int>, offset: int, cars: seq<Car>)
    requires PageStart(offset) && offset > 0 && |cars| == |Page(order, PAGE_SIZE, offset)|
    ensures var view := Loaded(offset, |order|, cars);
      && (view.cars == [] && view.controls.Hidden? <==> |order| <= PAGE_SIZE)
      && (view.controls.Visible? ==> view.controls.prev == Button(offset - PAGE_SIZE, true))
  {
  }

  // ----- While the table does not change -----

  /** The answers that a server with an unchanged table of `n` cars gives. */
  ghost predicate Unchanged(actions: seq<Action>, n: nat) {
    forall a | a in actions && a.Answered? :: a.total == n
  }

  /** The action is an answer to a load that was waiting for one. */
  predicate LoadAnswered(s: Session, a: Action) {
    a.Answered? && a.offset in s.pending
  }

  predicate AnyLoadAnswered(s: Session, actions: seq<Action>)
    decreases |actions|
  {
    actions != [] && (LoadAnswered(s, actions[0]) || AnyLoadAnswered(Act(s, actions[0]), actions[1..]))
  }

  ghost predicate InRange(s: Session, n: nat, loaded: bool) {
    && Sound(s)
    && (s.page.offset == 0 || s.page.offset < n)
    && (forall offset | offset in s.pending :: offset == 0 || offset < n)
    && s.page.controls == (if loaded then Render(s.page.offset, n) else Hidden)
  }

  lemma InRangeAct(s: Session, a: Action, n: nat, loaded: bool)
    requires n >= 1 && InRange(s, n, loaded) && (a.Answered? ==> a.total == n)
    ensures InRange(Act(s, a), n, loaded || LoadAnswered(s, a))
  {
    SoundAct(s, a);
  }

  lemma {:induction false} InRangeAll(s: Session, actions: seq<Action>, n: nat, loaded: bool)
    requires n >= 1 && InRange(s, n, loaded) && Unchanged(actions, n)
    ensures InRange(ActAll(s, actions), n, loaded || AnyLoadAnswered(s, actions))
    decreases |actions|
  {
    if actions == [] {
    } else {
      assert actions[0] in actions && forall a | a in actions[1..] :: a in actions;
      InRangeAct(s, actions[0], n, loaded);
      InRangeAll(Act(s, actions[0]), actions[1..], n, loaded || LoadAnswered(s, actions[0]));
    }
  }

  /** On an unchanged table with at least one car, in every run: no request goes past the end, and the
      page shown is between 1 and the number of pages. As soon as a load has been answered, the
      controls are there exactly when there are several pages, and Prev and Next are offered exactly
      when there is such a page. */
  lemma PagerStaysInRange(actions: seq<Action>, n: nat)
    requires n >= 1 && Unchanged(actions, n)
    ensures var s := ActAll(OPENED, actions);
      var controls := s.page.controls;
      && (forall offset | offset in s.pending :: 0 <= offset < n)
      && 1 <= s.page.offset / PAGE_SIZE + 1 <= Pages(n)
      && (controls.Visible? <==> AnyLoadAnswered(OPENED, actions) && Pages(n) > 1)
      && (controls.Visible? ==>
            && controls.page == s.page.offset / PAGE_SIZE + 1 && controls.pages == Pages(n)
            && (controls.next.enabled <==> controls.page < controls.pages)
            && (controls.prev.enabled <==> controls.page > 1))
  {
    InRangeAll(OPENED, actions, n, false);
  }

  // ----- Walking through the table with Next -----

  predicate NextOffered(controls: Controls) {
    controls.Visible? && controls.next.enabled
  }

  /** From the page at `offset` on, Next is clicked as long as it is offered, and each time the server
      answers with the page asked for. */
  function ClickNext(listing: seq<Car>, offset: nat): seq<Action>
    decreases |listing| - offset
  {
    if !NextOffered(Render(offset, |listing|)) then [] else
      var next := offset + PAGE_SIZE;
      [Next, Answered(next, |listing|, Page(listing, PAGE_SIZE, next))] + ClickNext(listing, next)
  }

  /** The first load, then Next to the end. */
  function Walk(listing: seq<Car>): seq<Action> {
    [Refresh, Answered(0, |listing|, Page(listing, PAGE_SIZE, 0))] + ClickNext(listing, 0)
  }

  /** The cars of all the pages loaded in a run, one page after the other. */
  function Seen(s: Session, actions: seq<Action>): seq<Car>
    decreases |actions|
  {
    if actions == [] then [] else
      var s1 := Act(s, actions[0]);
      (if LoadAnswered(s, actions[0]) then s1.page.cars else []) + Seen(s1, actions[1..])
  }

  /** The session after the page at `offset` has been loaded. */
  function OnPage(listing: seq<Car>, offset: int): Session {
    Session(Loaded(offset, |listing|, Page(listing, PAGE_SIZE, offset)), multiset{})
  }

  lemma LoadPage(s: Session, ask: Action, listing: seq<Car>, offset: int, rest: seq<Action>)
    requires Act(s, ask) == s.(pending := multiset{offset}) && !ask.Answered?
    ensures var actions := [ask, Answered(offset, |listing|, Page(listing, PAGE_SIZE, offset))] + rest;
      && Seen(s, actions) == Page(listing, PAGE_SIZE, offset) + Seen(OnPage(listing, offset), rest)
      && ActAll(s, actions) == ActAll(OnPage(listing, offset), rest)
  {
    var answer := Answered(offset, |listing|, Page(listing, PAGE_SIZE, offset));
    var actions := [ask, answer] + rest;
    assert actions[1..] == [answer] + rest && actions[1..][1..] == rest;
    assert Act(Act(s, ask), answer) == OnPage(listing, offset);
  }

  lemma PageThenTail(listing: seq<Car>, offset: nat)
    requires offset < |listing|
    ensures Page(listing, PAGE_SIZE, offset) + listing[Min(offset + PAGE_SIZE, |listing|)..] == listing[offset..]
  {
  }

  lemma NextAsks(listing: seq<Car>, offset: nat)
    requires offset == 0 || offset < |listing|
    ensures OnPage(listing, offset).page.controls == Render(offset, |listing|)
    ensures NextOffered(Render(offset, |listing|)) <==> offset + PAGE_SIZE < |listing|
    ensures offset + PAGE_SIZE < |listing| ==>
      Act(OnPage(listing, offset), Next) == OnPage(listing, offset).(pending := multiset{offset + PAGE_SIZE})
  {
  }

  lemma PrevAsks(listing: seq<Car>, offset: nat)
    requires offset + PAGE_SIZE < |listing|
    ensures Act(OnPage(listing, offset + PAGE_SIZE), Prev) == OnPage(listing, offset + PAGE_SIZE).(pending := multiset{offset})
  {
  }

  /** Prev undoes Next: the same page, with the same total and controls. */
  lemma NextThenPrev(listing: seq<Car>, offset: nat)
    requires PageStart(offset) && (offset == 0 || offset < |listing|) && NextOffered(Render(offset, |listing|))
    ensures var there := Answered(offset + 20, |listing|, Page(listing, 20, offset + 20));
      var back := Answered(offset, |listing|, Page(listing, 20, offset));
      ActAll(OnPage(listing, offset), [Next, there, Prev, back]) == OnPage(listing, offset)
  {
    var next := offset + PAGE_SIZE;
    var back := Answered(offset, |listing|, Page(listing, PAGE_SIZE, offset));
    NextAsks(listing, offset);
    LoadPage(OnPage(listing, offset), Next, listing, next, [Prev, back]);
    PrevAsks(listing, offset);
    LoadPage(OnPage(listing, next), Prev, listing, offset, []);
    assert [Prev, back] == [Prev, back] + [];
    assert [Next, Answered(next, |listing|, Page(listing, PAGE_SIZE, next)), Prev, back]
      == [Next, Answered(next, |listing|, Page(listing, PAGE_SIZE, next))] + [Prev, back];
  }

  /** Loading again after a delete or an edit stays on the page, and shows what the table holds by then. */
  lemma ReloadStays(before: seq<Car>, listing: seq<Car>, offset: nat)
    ensures ActAll(OnPage(before, offset), [Reload, Answered(offset, |listing|, Page(listing, 20, offset))]) == OnPage(listing, offset)
  {
    LoadPage(OnPage(before, offset), Reload, listing, offset, []);
    assert [Reload, Answered(offset, |listing|, Page(listing, 20, offset))]
      == [Reload, Answered(offset, |listing|, Page(listing, 20, offset))] + [];
  }

  /** A load that fails empties the list; the controls still work, so trying again shows the page. */
  lemma FailureKeepsControls(listing: seq<Car>, offset: nat)
    ensures var failed := ActAll(OnPage(listing, offset), [Reload, Failed(offset)]);
      && failed.page.cars == [] && failed.pending == multiset{} && failed.page.offset == offset
      && failed.page.controls == Render(offset, |listing|)
      && ActAll(failed, [Reload, Answered(offset, |listing|, Page(listing, 20, offset))]) == OnPage(listing, offset)
  {
    var s := OnPage(listing, offset);
    assert [Reload, Failed(offset)][1..] == [Failed(offset)] && [Failed(offset)][1..] == [];
    var failed := s.(page := s.page.(cars := []));
    assert Act(Act(s, Reload), Failed(offset)) == failed;
    assert ActAll(s, [Reload, Failed(offset)]) == ActAll(Act(s, Reload), [Failed(offset)]);
    assert ActAll(Act(s, Reload), [Failed(offset)]) == ActAll(failed, []) == failed;
    LoadPage(failed, Reload, listing, offset, []);
    assert [Reload, Answered(offset, |listing|, Page(listing, 20, offset))]
      == [Reload, Answered(offset, |listing|, Page(listing, 20, offset))] + [];
  }

  lemma {:induction false} ClickNextSeesTail(listing: seq<Car>, offset: nat)
    requires offset == 0 || offset < |listing|
    ensures var from, actions := OnPage(listing, offset), ClickNext(listing, offset);
      && Page(listing, PAGE_SIZE, offset) + Seen(from, actions) == listing[offset..]
      && !NextOffered(ActAll(from, actions).page.controls)
    decreases |listing| - offset
  {
    var next := offset + PAGE_SIZE;
    NextAsks(listing, offset);
    if next < |listing| {
      LoadPage(OnPage(listing, offset), Next, listing, next, ClickNext(listing, next));
      ClickNextSeesTail(listing, next);
      PageThenTail(listing, offset);
    } else {
      assert Page(listing, PAGE_SIZE, offset) == listing[offset..];
    }
  }

  /** Walking with Next from the first load on, until it is no longer offered, shows the whole listing
      in order, and with it every car of an unchanged table exactly once. */
  lemma WalkShowsEveryCarOnce(rows: map<int, Row>, order: seq<int>)
    requires IsListing(rows, order)
    ensures (forall id | id in order :: id in rows) && multiset(order) == multiset(rows.Keys)
    ensures var listing := FullCars(rows, order);
      Seen(OPENED, Walk(listing)) == listing && !NextOffered(ActAll(OPENED, Walk(listing)).page.controls)
  {
    var listing := FullCars(rows, order);
    ListingNamesAllRows(rows, order);
    LoadPage(OPENED, Refresh, listing, 0, ClickNext(listing, 0));
    ClickNextSeesTail(listing, 0);
  }
}
