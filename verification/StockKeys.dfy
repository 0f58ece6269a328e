// Idempotency keys under which an order's own reservations are recorded.
module StockKeys {

  function StockKey(orderId: string, cabinetId: string): string {
    "order:" + orderId + ":" + cabinetId
  }

  predicate ColonFree(s: string) {
    forall i :: 0 <= i < |s| ==> s[i] != ':'
  }

  lemma StockKeyAt(orderId: string, cabinetId: string, i: nat)
    requires i < |orderId| + 1
    ensures |StockKey(orderId, cabinetId)| > 6 + i
    ensures StockKey(orderId, cabinetId)[6 + i] == if i < |orderId| then orderId[i] else ':'
  {
  }

  // Within one order the key determines the cabinet, whatever the ids contain.
  lemma StockKeyDeterminesCabinet(orderId: string, c: string, c': string)
    requires StockKey(orderId, c) == StockKey(orderId, c')
    ensures c == c'
  {
    var n := 6 + |orderId| + 1;
    assert StockKey(orderId, c)[n..] == c;
    assert StockKey(orderId, c')[n..] == c';
  }

  // Across orders with colon-free ids (UUIDs are), the key determines both
  // parts even when cabinet ids contain colons.
  lemma StockKeyInjective(o: string, c: string, o': string, c': string)
    requires ColonFree(o) && ColonFree(o')
    requires StockKey(o, c) == StockKey(o', c')
    ensures o == o' && c == c'
  {
    if |o| < |o'| {
      StockKeyAt(o, c, |o|);
      StockKeyAt(o', c', |o|);
      assert false;
    }
    if |o'| < |o| {
      StockKeyAt(o, c, |o'|);
      StockKeyAt(o', c', |o'|);
      assert false;
    }
    forall i | 0 <= i < |o| ensures o[i] == o'[i] {
      StockKeyAt(o, c, i);
      StockKeyAt(o', c', i);
    }
    assert o == o';
    StockKeyDeterminesCabinet(o, c, c');
  }

  // Without colon-freeness two different orders can share a key.
  lemma StockKeyAmbiguousWithColons()
    ensures StockKey("a", "b:c") == StockKey("a:b", "c")
  {
    assert StockKey("a", "b:c") == "order:a:b:c" == StockKey("a:b", "c");
  }
}
