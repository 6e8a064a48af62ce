/** The browser's `localStorage`: one string-keyed, string-valued store shared
    by every component of the page. `getItem(key)` is read off `items`
    directly: a missing key (`null`) is a key not in the map. */
module LocalStorage {
  class Storage {
    var items: map<string, string>

    constructor (items: map<string, string>)
      ensures this.items == items
    {
      this.items := items;
    }

    /** `setItem(key, value)`. */
    method SetItem(key: string, value: string)
      modifies this
      ensures items == old(items)[key := value]
    {
      items := items[key := value];
    }
  }
}
