/**
 * The URL search parameters that the dataset viewer's routes read and
 * rewrite. Every parameter the routes use (`p`, `json_viewer`) is a number,
 * modelled as an integer; any other parameter is kept as an opaque entry of
 * the same map, so that "every other parameter is unchanged" can be stated.
 */
module SearchParams {
  type Search = map<string, int>

  /** The current page of the paginated route. */
  const PageKey: string := "p"
  /** The address of the cell whose record the JSON inspector shows. */
  const ViewerKey: string := "json_viewer"

  /** `s` and `t` hold the same parameters with the same values, except perhaps `key`. */
  ghost predicate AgreeExcept(s: Search, t: Search, key: string) {
    forall k :: k != key ==> (k in s <==> k in t) && (k in s ==> s[k] == t[k])
  }

  /** The spread update `{ ...prev, [key]: v }`. */
  function Put(s: Search, key: string, v: int): (r: Search)
    ensures key in r && r[key] == v
    ensures AgreeExcept(s, r, key)
  {
    s[key := v]
  }

  /** The rest-destructuring `const { [key]: _, ...rest } = prev`, yielding `rest`. */
  function Drop(s: Search, key: string): (r: Search)
    ensures key !in r
    ensures AgreeExcept(s, r, key)
  {
    s - {key}
  }
}
