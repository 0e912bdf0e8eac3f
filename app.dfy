/** The application shell: the catalog filter, the choice of what the page
    shows, and the shell-owned state with its transitions. */
module App {
  import opened Types
  import opened Text

  // ---------------------------------------------------------------------
  // The filter
  // ---------------------------------------------------------------------

  /** The lower-cased title contains the lower-cased query. The empty
      query matches every title; a query longer than the title matches none. */
  function MatchesSearch(g: Game, query: string): (r: bool)
    ensures query == [] ==> r
    ensures r ==> |query| <= |g.title|
  {
    Includes(Lower(g.title), Lower(query))
  }

  /** The selector is the wildcard, or names the game's category exactly.
      A game whose category string is the name of a selector `c` matches
      just the wildcard and `c`. */
  function MatchesCategory(g: Game, active: Category): (r: bool)
    ensures active == All ==> r
    ensures forall c: Category :: g.category == c.Name() ==> (r <==> active == All || active == c)
  {
    forall c: Category | g.category == c.Name() ensures active.Name() == c.Name() <==> active == c {
      NameInjective(active, c);
    }
    active == All || g.category == active.Name()
  }

  /** The predicate handed to the filter: both tests hold. Under the empty
      query and the wildcard every game matches; a query longer than the
      title never does. */
  function Matches(g: Game, query: string, active: Category): (r: bool)
    ensures query == [] && active == All ==> r
    ensures r ==> |query| <= |g.title|
  {
    MatchesSearch(g, query) && MatchesCategory(g, active)
  }

  /** The visible games: the catalog filtered front to back, keeping the
      games that match the query and the selector. */
  function FilteredGames(games: seq<Game>, query: string, active: Category): (r: seq<Game>)
    ensures |r| <= |games|
    ensures forall k :: 0 <= k < |r| ==> r[k] in games && Matches(r[k], query, active)
  {
    if games == [] then []
    else
      var rest := FilteredGames(games[1..], query, active);
      if Matches(games[0], query, active) then [games[0]] + rest else rest
  }

  /** `r` can be obtained from `s` by deleting elements, keeping the order. */
  ghost predicate IsSubsequence<T>(r: seq<T>, s: seq<T>)
    decreases |s|
  {
    if r == [] then true
    else if s == [] then false
    else (r[0] == s[0] && IsSubsequence(r[1..], s[1..])) || IsSubsequence(r, s[1..])
  }

  /** The visible games keep the catalog's relative order. */
  lemma {:induction false} FilterIsSubsequence(games: seq<Game>, query: string, active: Category)
    ensures IsSubsequence(FilteredGames(games, query, active), games)
  {
    if games != [] {
      var r := FilteredGames(games, query, active);
      var rest := FilteredGames(games[1..], query, active);
      FilterIsSubsequence(games[1..], query, active);
      if Matches(games[0], query, active) {
        assert r == [games[0]] + rest;
        assert r[1..] == rest;
      } else {
        assert r == rest;
      }
    }
  }

  /** A game is visible exactly when it is in the catalog and matches. */
  lemma {:induction false} FilterMembership(games: seq<Game>, query: string, active: Category, g: Game)
    ensures g in FilteredGames(games, query, active) <==> g in games && Matches(g, query, active)
  {
    if games != [] {
      FilterMembership(games[1..], query, active, g);
      assert games == [games[0]] + games[1..];
    }
  }

  /** The filter neither drops nor duplicates a matching game: each one is
      visible as many times as it occurs in the catalog. */
  lemma {:induction false} FilterCount(games: seq<Game>, query: string, active: Category, g: Game)
    ensures multiset(FilteredGames(games, query, active))[g]
         == if Matches(g, query, active) then multiset(games)[g] else 0
  {
    if games != [] {
      FilterCount(games[1..], query, active, g);
      assert games == [games[0]] + games[1..];
    }
  }

  /** Filtering a concatenation filters each part. */
  lemma {:induction false} FilterAppend(a: seq<Game>, b: seq<Game>, query: string, active: Category)
    ensures FilteredGames(a + b, query, active)
         == FilteredGames(a, query, active) + FilteredGames(b, query, active)
  {
    if a != [] {
      FilterAppend(a[1..], b, query, active);
      assert (a + b)[1..] == a[1..] + b;
    } else {
      assert a + b == b;
    }
  }

  /** Filtering the visible games again changes nothing. */
  lemma {:induction false} FilterIdempotent(games: seq<Game>, query: string, active: Category)
    ensures FilteredGames(FilteredGames(games, query, active), query, active)
         == FilteredGames(games, query, active)
  {
    if games != [] {
      FilterIdempotent(games[1..], query, active);
    }
  }

  /** With an empty query and the wildcard selector every game is visible,
      in catalog order. */
  lemma {:induction false} FilterEmptyQueryAll(games: seq<Game>)
    ensures FilteredGames(games, "", All) == games
  {
    if games != [] {
      IncludesEmpty(Lower(games[0].title));
      FilterEmptyQueryAll(games[1..]);
    }
  }

  /** Queries with the same lower-case form select the same games. */
  lemma {:induction false} FilterCaseInsensitive(games: seq<Game>, q1: string, q2: string, active: Category)
    requires Lower(q1) == Lower(q2)
    ensures FilteredGames(games, q1, active) == FilteredGames(games, q2, active)
  {
    if games != [] {
      FilterCaseInsensitive(games[1..], q1, q2, active);
    }
  }

  /** Filtering by a query gives what filtering by its lower-case form gives. */
  lemma FilterLowerQuery(games: seq<Game>, query: string, active: Category)
    ensures FilteredGames(games, Lower(query), active) == FilteredGames(games, query, active)
  {
    LowerIdempotent(query);
    FilterCaseInsensitive(games, Lower(query), query, active);
  }

  /** Under a selector other than the wildcard, a game of another category
      is never visible, whatever the query. */
  lemma FilterCategoryExact(games: seq<Game>, query: string, active: Category, g: Game)
    requires active != All && g.category != active.Name()
    ensures g !in FilteredGames(games, query, active)
  {
    FilterMembership(games, query, active, g);
  }

  /** An empty catalog shows nothing, whatever the query and selector. */
  lemma FilterEmptyCatalog(query: string, active: Category)
    ensures FilteredGames([], query, active) == []
  {
  }

  /** The first sample entry of the catalog. */
  function BlockBlast(): Game
  {
    Game("1", "Block Blast", "Puzzle", "", "", "", None)
  }

  /** The second sample entry of the catalog. */
  function SpeedRace(): Game
  {
    Game("2", "Speed Race", "Sports", "", "", "", None)
  }

  /** The lower-cased "Block Blast" starts with "bl". */
  lemma BlockBlastMatchesBl()
    ensures Matches(BlockBlast(), "bl", All)
  {
    var t := Lower(BlockBlast().title);
    assert t[0] == 'b' && t[1] == 'l';
    assert t[..2] == "bl";
    LowerQueriesBl();
  }

  /** The lower-cased "Speed Race" holds no 'b', so not "bl". */
  lemma SpeedRaceMissesBl()
    ensures !Matches(SpeedRace(), "bl", All)
  {
    var t := Lower(SpeedRace().title);
    assert forall i :: 0 <= i < |t| ==> t[i] != 'b';
    IncludesNeedsFirstChar(t, "bl");
    LowerQueriesBl();
  }

  lemma LowerQueriesBl()
    ensures Lower("bl") == "bl" && Lower("BL") == "bl"
  {
    assert Lower("BL")[0] == 'b' && Lower("BL")[1] == 'l';
  }

  /** The query "bl" under the wildcard picks out "Block Blast" only, in
      either case. */
  lemma FilterSampleByQuery()
    ensures FilteredGames([BlockBlast(), SpeedRace()], "bl", All) == [BlockBlast()]
    ensures FilteredGames([BlockBlast(), SpeedRace()], "BL", All) == [BlockBlast()]
  {
    BlockBlastMatchesBl();
    SpeedRaceMissesBl();
    LowerQueriesBl();
    assert [BlockBlast(), SpeedRace()][1..] == [SpeedRace()];
    assert FilteredGames([SpeedRace()], "bl", All) == [];
    FilterCaseInsensitive([BlockBlast(), SpeedRace()], "BL", "bl", All);
  }

  /** The "Sports" selector with an empty query picks out "Speed Race" only. */
  lemma FilterSampleByCategory()
    ensures FilteredGames([BlockBlast(), SpeedRace()], "", Sports) == [SpeedRace()]
  {
    IncludesEmpty(Lower(SpeedRace().title));
    assert !Matches(BlockBlast(), "", Sports);
    assert Matches(SpeedRace(), "", Sports);
    assert [BlockBlast(), SpeedRace()][1..] == [SpeedRace()];
    assert FilteredGames([SpeedRace()], "", Sports) == [SpeedRace()];
  }

  // ---------------------------------------------------------------------
  // What the page shows
  // ---------------------------------------------------------------------

  /** The main area: the player, the loading spinner, the grid of cards, or
      the "No games found" message. */
  datatype View = Player(game: Game) | Spinner | Grid(cards: seq<Game>) | NoGamesFound

  /** The main area and whether the footer is drawn below it. */
  datatype Screen = Screen(main: View, footer: bool)

  /** The page for a given state: the player while a game is selected; else
      the spinner while loading; else the grid of visible games, or the
      empty-state message when none is visible. The footer is drawn exactly
      when no game is selected. */
  function Render(selected: Option<Game>, isLoading: bool, games: seq<Game>,
                  query: string, active: Category): (s: Screen)
    ensures s.footer <==> selected.None?
    ensures s.main.Player? <==> selected.Some?
    ensures s.main.Player? ==> s.main.game == selected.value
    ensures s.main.Spinner? <==> selected.None? && isLoading
    ensures s.main.Grid? ==> |s.main.cards| > 0
    ensures s.main.Grid? ==> s.main.cards == FilteredGames(games, query, active)
    ensures s.main.Grid? ==> forall g :: g in s.main.cards <==> g in games && Matches(g, query, active)
    ensures s.main.NoGamesFound? ==> selected.None? && !isLoading
    ensures s.main.NoGamesFound? ==> forall g :: g in games ==> !Matches(g, query, active)
  {
    var visible := FilteredGames(games, query, active);
    var main :=
      if selected.Some? then Player(selected.value)
      else if isLoading then Spinner
      else if |visible| > 0 then Grid(visible)
      else NoGamesFound;
    forall g ensures g in visible <==> g in games && Matches(g, query, active) {
      FilterMembership(games, query, active, g);
    }
    Screen(main, selected.None?)
  }

  /** Once loading is over and nothing is selected, an empty catalog shows
      the empty-state message for any query and selector. */
  lemma EmptyCatalogShowsNoGames(query: string, active: Category)
    ensures Render(None, false, [], query, active).main == NoGamesFound
  {
  }

  // ---------------------------------------------------------------------
  // The shell's state and its transitions
  // ---------------------------------------------------------------------

  /** The state the shell owns, each field updated in place by its setter. */
  class Shell {
    var games: seq<Game>
    var selectedGame: Option<Game>
    var searchQuery: string
    var activeCategory: Category
    var isLoading: bool

    /** The visible games for the current state. */
    function Visible(): (r: seq<Game>)
      reads this
      ensures |r| <= |games|
      ensures forall g :: g in r <==> g in games && Matches(g, searchQuery, activeCategory)
    {
      forall g ensures g in FilteredGames(games, searchQuery, activeCategory)
                       <==> g in games && Matches(g, searchQuery, activeCategory) {
        FilterMembership(games, searchQuery, activeCategory, g);
      }
      FilteredGames(games, searchQuery, activeCategory)
    }

    /** The page for the current state. */
    function Current(): (s: Screen)
      reads this
      ensures s.footer <==> selectedGame.None?
    {
      Render(selectedGame, isLoading, games, searchQuery, activeCategory)
    }

    /** The state on mount: no games, nothing selected, empty query, the
        wildcard selector, and the catalog still loading. */
    constructor ()
      ensures games == [] && selectedGame == None && searchQuery == ""
      ensures activeCategory == All && isLoading
      ensures Current() == Screen(Spinner, true)
    {
      games := [];
      selectedGame := None;
      searchQuery := "";
      activeCategory := All;
      isLoading := true;
    }

    /** A card was clicked: the player shows that game and the footer goes. */
    method PlayGame(g: Game)
      modifies this
      ensures selectedGame == Some(g)
      ensures games == old(games) && searchQuery == old(searchQuery)
      ensures activeCategory == old(activeCategory) && isLoading == old(isLoading)
      ensures Current() == Screen(Player(g), false)
    {
      selectedGame := Some(g);
    }

    /** Back from the player or the navigation bar: nothing is selected, and
        nothing else changes; pressing it again changes nothing. */
    method BackToHome()
      modifies this
      ensures selectedGame == None
      ensures games == old(games) && searchQuery == old(searchQuery)
      ensures activeCategory == old(activeCategory) && isLoading == old(isLoading)
      ensures old(selectedGame) == None ==> unchanged(this)
      ensures !Current().main.Player? && Current().footer
    {
      selectedGame := None;
    }

    /** The search box changed. */
    method SetSearchQuery(q: string)
      modifies this
      ensures searchQuery == q
      ensures games == old(games) && selectedGame == old(selectedGame)
      ensures activeCategory == old(activeCategory) && isLoading == old(isLoading)
      ensures Visible() == FilteredGames(games, q, activeCategory)
    {
      searchQuery := q;
    }

    /** A category button was clicked. */
    method SetActiveCategory(c: Category)
      modifies this
      ensures activeCategory == c
      ensures games == old(games) && selectedGame == old(selectedGame)
      ensures searchQuery == old(searchQuery) && isLoading == old(isLoading)
      ensures forall g :: g in Visible() ==> c == All || g.category == c.Name()
    {
      activeCategory := c;
      forall g | g in Visible() ensures c == All || g.category == c.Name() {
        FilterMembership(games, searchQuery, c, g);
      }
    }

    /** The catalog arrived: it replaces the games wholesale and loading ends. */
    method LoadSucceeded(data: seq<Game>)
      modifies this
      ensures games == data && !isLoading
      ensures selectedGame == old(selectedGame) && searchQuery == old(searchQuery)
      ensures activeCategory == old(activeCategory)
    {
      games := data;
      isLoading := false;
    }

    /** Fetching or parsing the catalog failed: the games stay as they were
        and loading ends. */
    method LoadFailed()
      modifies this
      ensures games == old(games) && !isLoading
      ensures selectedGame == old(selectedGame) && searchQuery == old(searchQuery)
      ensures activeCategory == old(activeCategory)
    {
      isLoading := false;
    }
  }

  // ---------------------------------------------------------------------
  // Sessions of the shell
  // ---------------------------------------------------------------------

  /** A failed load on mount: the catalog stays empty, the spinner gives way
      to the empty-state message, and the footer is drawn. */
  method FailedLoadSession() returns (loading: Screen, loaded: Screen, games: seq<Game>)
    ensures loading.main == Spinner && loaded.main == NoGamesFound && loaded.footer
    ensures games == []
  {
    var shell := new Shell();
    loading := shell.Current();
    shell.LoadFailed();
    loaded := shell.Current();
    games := shell.games;
  }

  /** Playing a loaded game and coming back: the player replaces the grid,
      and going back restores the grid with the query and selector as they
      were. */
  method PlayAndBackSession(data: seq<Game>, query: string, active: Category, g: Game)
    returns (before: Screen, during: Screen, after: Screen)
    ensures during == Screen(Player(g), false)
    ensures after == before
    ensures !after.main.Player? && !after.main.Spinner? && after.footer
  {
    var shell := new Shell();
    shell.LoadSucceeded(data);
    shell.SetSearchQuery(query);
    shell.SetActiveCategory(active);
    before := shell.Current();
    shell.PlayGame(g);
    during := shell.Current();
    shell.BackToHome();
    after := shell.Current();
  }
}
