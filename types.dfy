/** The catalog's record types: a game entry and the category selector. */
module Types {

  datatype Option<+T> = None | Some(value: T)

  /** The category selector. `All` is the wildcard filter value, not a
      category any game is meant to carry. */
  datatype Category = All | Action | Puzzle | Arcade | Sports | Strategy
  {
    /** The literal string of this member of the union. Only the wildcard
        is named "All", so a game whose category string is "All" is not
        singled out by any real selector. */
    function Name(): (s: string)
      ensures s == "All" <==> this == All
    {
      match this
      case All => "All"
      case Action => "Action"
      case Puzzle => "Puzzle"
      case Arcade => "Arcade"
      case Sports => "Sports"
      case Strategy => "Strategy"
    }
  }

  /** Distinct selectors have distinct names, so comparing a game's category
      string with a selector's name picks out exactly one selector. */
  lemma NameInjective(c: Category, d: Category)
    ensures c.Name() == d.Name() <==> c == d
  {
  }

  /** One catalog entry, with the fields of the catalog record: identifier,
      title, category, description, thumbnail reference, embeddable-page
      reference and the optional "featured" flag. The category is a free
      string as loaded from the catalog file, so it may name no selector at
      all. */
  datatype Game = Game(
    id: string,
    title: string,
    category: string,
    description: string,
    thumbnail: string,
    iframeUrl: string,
    isFeatured: Option<bool>)
}
