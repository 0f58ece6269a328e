// The use case layer: what it checks before a call reaches the repository.
module UseCase {
  import opened Tables
  import opened Spec
  import opened Repository

  // White space as strings.TrimSpace understands it.
  predicate IsSpace(c: char): (space: bool)
    ensures space <==>
      || 0x09 <= c as int <= 0x0D || 0x2000 <= c as int <= 0x200A
      || c as int in {0x20, 0x85, 0xA0, 0x1680, 0x2028, 0x2029, 0x202F, 0x205F, 0x3000}
  {
    c in {' ', '\t', '\n', '\r', '\U{0B}', '\U{0C}', '\U{85}', '\U{A0}', '\U{1680}',
          '\U{2028}', '\U{2029}', '\U{202F}', '\U{205F}', '\U{3000}'}
    || '\U{2000}' <= c <= '\U{200A}'
  }

  function TrimLeft(s: string): string {
    if s != [] && IsSpace(s[0]) then TrimLeft(s[1..]) else s
  }

  function TrimRight(s: string): string {
    if s != [] && IsSpace(s[|s| - 1]) then TrimRight(s[..|s| - 1]) else s
  }

  function TrimSpace(s: string): string {
    TrimRight(TrimLeft(s))
  }

  predicate Blank(s: string) {
    forall i :: 0 <= i < |s| ==> IsSpace(s[i])
  }

  // u is core with white space around it.
  ghost predicate Padded(u: string, core: string) {
    exists l, r :: Blank(l) && Blank(r) && u == l + core + r
  }

  // The id between the spaces around it, or "anonymous" if there is none.
  function NormalUser(userId: string): (user: string)
    ensures Blank(userId) ==> user == "anonymous"
    ensures !Blank(userId) ==> Padded(userId, user) && user != "" && !IsSpace(user[0]) && !IsSpace(user[|user| - 1])
  {
    TrimmedCore(userId);
    if TrimSpace(userId) == "" then "anonymous" else TrimSpace(userId)
  }

  lemma {:induction false} TrimmedLeft(s: string) returns (l: string)
    ensures Blank(l) && s == l + TrimLeft(s)
    ensures TrimLeft(s) != "" ==> !IsSpace(TrimLeft(s)[0])
    ensures TrimLeft(s) == "" <==> Blank(s)
  {
    l := "";
    if s != [] && IsSpace(s[0]) {
      var rest := TrimmedLeft(s[1..]);
      l := [s[0]] + rest;
      assert s == [s[0]] + s[1..];
    }
  }

  lemma {:induction false} TrimmedRight(s: string) returns (r: string)
    ensures Blank(r) && s == TrimRight(s) + r
    ensures TrimRight(s) != "" ==> !IsSpace(TrimRight(s)[|TrimRight(s)| - 1])
    ensures TrimRight(s) == "" ==> Blank(s)
  {
    r := "";
    if s != [] && IsSpace(s[|s| - 1]) {
      var rest := TrimmedRight(s[..|s| - 1]);
      r := rest + [s[|s| - 1]];
      assert s == s[..|s| - 1] + [s[|s| - 1]];
    }
  }

  lemma TrimmedCore(s: string)
    ensures Blank(s) <==> TrimSpace(s) == ""
    ensures Padded(s, TrimSpace(s))
    ensures TrimSpace(s) != "" ==> !IsSpace(TrimSpace(s)[0]) && !IsSpace(TrimSpace(s)[|TrimSpace(s)| - 1])
  {
    var l := TrimmedLeft(s);
    var r := TrimmedRight(TrimLeft(s));
    assert s == l + TrimSpace(s) + r;
    if TrimSpace(s) != "" {
      assert TrimSpace(s)[0] == TrimLeft(s)[0];
    }
  }

  lemma {:induction false} TrimLeftDropsPadding(pad: string, s: string)
    requires Blank(pad)
    ensures TrimLeft(pad + s) == TrimLeft(s)
  {
    if pad == [] {
      assert pad + s == s;
    } else {
      assert (pad + s)[1..] == pad[1..] + s;
      TrimLeftDropsPadding(pad[1..], s);
    }
  }

  lemma {:induction false} TrimRightDropsPadding(s: string, pad: string)
    requires Blank(pad)
    ensures TrimRight(s + pad) == TrimRight(s)
  {
    if pad == [] {
      assert s + pad == s;
    } else {
      assert (s + pad)[..|s + pad| - 1] == s + pad[..|pad| - 1];
      TrimRightDropsPadding(s, pad[..|pad| - 1]);
    }
  }

  lemma {:induction false} TrimLeftKeepsStart(s: string, pad: string)
    requires Blank(pad)
    ensures TrimLeft(s + pad) == (if Blank(s) then [] else TrimLeft(s) + pad)
  {
    if s == [] {
      assert s + pad == pad + [];
      TrimLeftDropsPadding(pad, []);
    } else if IsSpace(s[0]) {
      assert (s + pad)[1..] == s[1..] + pad;
      TrimLeftKeepsStart(s[1..], pad);
      assert Blank(s) <==> Blank(s[1..]) by {
        assert forall i :: 1 <= i < |s| ==> s[i] == s[1..][i - 1];
        if Blank(s[1..]) {
          forall i | 0 <= i < |s| ensures IsSpace(s[i]) {
            if i > 0 { assert IsSpace(s[1..][i - 1]); }
          }
        }
      }
    } else {
      assert (s + pad)[0] == s[0];
    }
  }

  // Spaces around a user id make no difference, so a retry that differs only
  // there is still the same user's.
  lemma PaddedUserIsSameUser(left: string, userId: string, right: string)
    requires Blank(left) && Blank(right)
    ensures NormalUser(left + userId + right) == NormalUser(userId)
  {
    assert left + userId + right == left + (userId + right);
    TrimLeftDropsPadding(left, userId + right);
    TrimLeftKeepsStart(userId, right);
    TrimLeftKeepsStart(userId, []);
    assert userId + [] == userId && TrimLeft(userId) + [] == TrimLeft(userId);
    if !Blank(userId) {
      TrimRightDropsPadding(TrimLeft(userId), right);
    }
  }

  class CabinetUsecase {
    const repository: CabinetRepository

    constructor (repository: CabinetRepository)
      ensures this.repository == repository
    {
      this.repository := repository;
    }

    // Non-positive quantities are refused before the database is touched.
    method ReserveStock(line: Line, key: string, lifetime: nat, fate: CommitFate)
      returns (r: Result<Reply>, faulted: bool)
      requires line.quantity <= 0x7fff_ffff
      modifies repository.db
      ensures line.quantity <= 0 ==>
        r == Err(InsufficientStock) && repository.db.tables == old(repository.db.tables)
      ensures line.quantity > 0 ==>
        Meets(old(repository.db.tables), repository.db.tables,
              Call(Reserve(line, key), Ids("", [], ""), 0), [], r, faulted, fate)
    {
      if line.quantity <= 0 {
        return Err(InsufficientStock), false;
      }
      r, faulted := repository.ReserveStockTx(line, key, lifetime, fate);
    }

    // Empty orders and non-positive quantities are refused before the database
    // is touched; everything else is the repository's call for the normalised user.
    method CreateOrder(userId: string, items: seq<Line>, key: string, ids: Ids, now: int,
                       lifetime: nat, fate: CommitFate)
      returns (r: Result<Reply>, faulted: bool, ghost rows: seq<ItemRow>)
      requires forall l :: l in items ==> l.quantity <= 0x7fff_ffff
      requires |ids.itemIds| == |items|
      modifies repository.db
      ensures items == [] ==> r == Err(EmptyOrder) && repository.db.tables == old(repository.db.tables)
      ensures items != [] && (exists l :: l in items && l.quantity <= 0) ==>
        r == Err(InvalidQuantity) && repository.db.tables == old(repository.db.tables)
      ensures items != [] && (forall l :: l in items ==> l.quantity > 0) ==>
        Meets(old(repository.db.tables), repository.db.tables,
              Call(Place(NormalUser(userId), items, key), ids, now), rows, r, faulted, fate)
        && (PossibleListing(old(repository.db.tables), Call(Place(NormalUser(userId), items, key), ids, now), rows) || faulted)
    {
      var user := TrimSpace(userId);
      if user == "" {
        user := "anonymous";
      }
      if |items| == 0 {
        return Err(EmptyOrder), false, [];
      }
      for i := 0 to |items|
        invariant forall k :: 0 <= k < i ==> items[k].quantity > 0
      {
        if items[i].quantity <= 0 {
          return Err(InvalidQuantity), false, [];
        }
      }
      r, faulted, rows := repository.CreateOrderTx(user, items, key, ids, now, lifetime, fate);
    }
  }
}
