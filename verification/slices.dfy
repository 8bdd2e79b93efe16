/**
 The two Redux slices: the search query and the coin list. A reducer is a pure function
 of the state and an action; a run of the store is the reducer folded over the actions
 from the initial state.
 */
module SearchSlice {
  datatype SearchAction = SetSearchQuery(query: string) | ClearSearchQuery

  const InitialQuery: string := ""

  /** `setSearchQuery` replaces the query with the payload; `clearSearchQuery` empties it. */
  function Reduce(state: string, action: SearchAction): (r: string)
    ensures action.SetSearchQuery? ==> r == action.query
    ensures action.ClearSearchQuery? ==> r == ""
  {
    match action
    case SetSearchQuery(query) => query
    case ClearSearchQuery => ""
  }

  /** The query after dispatching `actions` in order from the initial state. */
  function Run(actions: seq<SearchAction>): string {
    if |actions| == 0 then InitialQuery else Reduce(Run(actions[..|actions| - 1]), actions[|actions| - 1])
  }

  /** The state never depends on history: it is the last action's payload, or "" after a clear or with no action. */
  lemma LastActionDecides(actions: seq<SearchAction>)
    ensures |actions| == 0 ==> Run(actions) == ""
    ensures |actions| > 0 && actions[|actions| - 1].SetSearchQuery? ==> Run(actions) == actions[|actions| - 1].query
    ensures |actions| > 0 && actions[|actions| - 1].ClearSearchQuery? ==> Run(actions) == ""
  {
  }

  /** Setting the same query twice is setting it once; a second set overrides the first. */
  lemma SetTwice(state: string, a: string, b: string)
    ensures Reduce(Reduce(state, SetSearchQuery(a)), SetSearchQuery(a)) == Reduce(state, SetSearchQuery(a))
    ensures Reduce(Reduce(state, SetSearchQuery(a)), SetSearchQuery(b)) == b
  {
  }

  /** Dispatching more actions after a prefix is the same as running the whole sequence. */
  lemma RunAppend(prefix: seq<SearchAction>, action: SearchAction)
    ensures Run(prefix + [action]) == Reduce(Run(prefix), action)
  {
    assert (prefix + [action])[..|prefix|] == prefix;
  }
}

module CoinsSlice {
  import opened CoinsModel

  datatype CoinsAction = InitCoins(coins: seq<Coin>)

  const InitialCoins: seq<Coin> := []

  /** `initCoins` replaces the whole list with the payload, whatever the list was. */
  function Reduce(state: seq<Coin>, action: CoinsAction): (r: seq<Coin>)
    ensures r == action.coins
  {
    match action
    case InitCoins(coins) => coins
  }

  /** Initializing with the same payload twice is initializing once; a second payload replaces the first. */
  lemma InitTwice(state: seq<Coin>, a: seq<Coin>, b: seq<Coin>)
    ensures Reduce(Reduce(state, InitCoins(a)), InitCoins(a)) == Reduce(state, InitCoins(a))
    ensures Reduce(Reduce(state, InitCoins(a)), InitCoins(b)) == b
  {
  }

  /** The list after dispatching `actions` in order from the initial state. */
  function Run(actions: seq<CoinsAction>): seq<Coin> {
    if |actions| == 0 then InitialCoins else Reduce(Run(actions[..|actions| - 1]), actions[|actions| - 1])
  }

  /** The list is the last payload, or empty before any dispatch. */
  lemma LastInitDecides(actions: seq<CoinsAction>)
    ensures |actions| == 0 ==> Run(actions) == []
    ensures |actions| > 0 ==> Run(actions) == actions[|actions| - 1].coins
  {
  }
}
