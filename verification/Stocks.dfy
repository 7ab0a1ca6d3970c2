/** The items of a cache by name, and the space they use. */
module Stocks {
  import opened CacheItem

  type Stock = map<string, ItemState>

  /** The space used by all the items. */
  ghost function Total(stock: Stock): nat {
    if stock == map[] then 0
    else
      var name :| name in stock;
      DiskSize(stock[name]) + Total(stock - {name})
  }

  lemma {:induction false} TotalWithout(stock: Stock, name: string)
    requires name in stock
    ensures Total(stock) == DiskSize(stock[name]) + Total(stock - {name})
  {
    var first :| first in stock && Total(stock) == DiskSize(stock[first]) + Total(stock - {first});
    if first != name {
      TotalWithout(stock - {first}, name);
      TotalWithout(stock - {name}, first);
      assert stock - {first} - {name} == stock - {name} - {first};
    }
  }

  predicate QuotaOk(maxSize: int, used: int) { maxSize <= 0 || used <= maxSize }
}
