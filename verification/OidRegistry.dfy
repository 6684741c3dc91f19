/**
 The registry of special mechanism OIDs in the interposer (src/mechglue/gss_plugin.c):
 an add-only linked list that pairs every regular OID with its special form, the
 interposer's own OID followed by the regular one.
 */
module OidRegistry {
  import opened SeqLib
  import opened Wire

  type Oid = seq<byte>

  /** gssproxy_mech_interposer. */
  const BASE: Oid := [0x60, 0x86, 0x48, 0x01, 0x86, 0xF8, 0x42, 0x03, 0x08, 0x0F, 0x01]

  /** One arc of an OID: base 128, most significant digit first, the top bit set on all but the last. */
  function Arc(n: nat): Oid { if n < 128 then [n] else Digits(n / 128) + [n % 128] }

  function Digits(n: nat): Oid { if n < 128 then [128 + n] else Digits(n / 128) + [128 + n % 128] }

  /** It is 2.16.840.1.113730.3.8.15.1, the first two arcs together as 40 * 2 + 16. */
  lemma {:induction false} BaseArcs()
    ensures BASE == Arc(40 * 2 + 16) + Arc(840) + Arc(1) + Arc(113730) + Arc(3) + Arc(8) + Arc(15) + Arc(1)
  {
    assert Arc(840) == [0x86, 0x48];
    assert Digits(888) == Digits(6) + [0xF8] == [0x86, 0xF8];
    assert Arc(113730) == Digits(888) + [0x42];
  }

  predicate IsSpecial(m: Oid) { |m| >= |BASE| && m[..|BASE|] == BASE }

  // ----- the registry as the list of its regular OIDs -----

  function Register(rs: seq<Oid>, m: Oid): (r: seq<Oid>)
    ensures m in r && rs <= r
    ensures NoDup(rs) ==> NoDup(r)
  {
    if m in rs then rs else rs + [m]
  }

  /** The registry after gpp_special_mech. */
  function AfterSpecial(rs: seq<Oid>, m: Option<Oid>): seq<Oid> {
    if m.None? || IsSpecial(m.value) then rs else Register(rs, m.value)
  }

  /** What gpp_special_mech returns. */
  function Special(rs: seq<Oid>, m: Option<Oid>): Option<Oid> {
    match m
    case None => if rs == [] then None else Some(BASE + rs[0])
    case Some(oid) => Some(if IsSpecial(oid) then oid else BASE + oid)
  }

  /** What gpp_unspecial_mech returns. */
  function Unspecial(rs: seq<Oid>, m: Option<Oid>): Option<Oid> {
    if m.Some? && IsSpecial(m.value) && m.value[|BASE|..] in rs then Some(m.value[|BASE|..]) else m
  }

  /**
   The registry after one element of gpp_special_available_mechs: a special OID is left alone unless the list
   is empty.
   */
  function AfterElement(rs: seq<Oid>, m: Oid): seq<Oid> {
    if IsSpecial(m) && rs != [] then rs else Register(rs, m)
  }

  function AfterAvailable(rs: seq<Oid>, ms: seq<Oid>): (r: seq<Oid>)
    ensures rs <= r
    ensures NoDup(rs) ==> NoDup(r)
    decreases |ms|
  {
    if ms == [] then rs else AfterAvailable(AfterElement(rs, ms[0]), ms[1..])
  }

  function Include(s: seq<Oid>, m: Oid): seq<Oid> { if m in s then s else s + [m] }

  /** The set that gpp_special_available_mechs returns. */
  function Available(rs: seq<Oid>, ms: seq<Oid>, acc: seq<Oid>): (r: seq<Oid>)
    decreases |ms|
  {
    if ms == [] then acc
    else
      var offered := if IsSpecial(ms[0]) && rs != [] then ms[0] else BASE + ms[0];
      Available(AfterElement(rs, ms[0]), ms[1..], Include(acc, offered))
  }

  datatype Op = SpecialMech(m: Option<Oid>) | UnspecialMech(m: Option<Oid>) | AvailableMechs(ms: seq<Oid>)

  function After(rs: seq<Oid>, op: Op): (r: seq<Oid>)
    ensures rs <= r
    ensures NoDup(rs) ==> NoDup(r)
  {
    match op
    case SpecialMech(m) => AfterSpecial(rs, m)
    case UnspecialMech(_) => rs
    case AvailableMechs(ms) => AfterAvailable(rs, ms)
  }

  function AfterAll(rs: seq<Oid>, ops: seq<Op>): (r: seq<Oid>)
    ensures rs <= r
    ensures NoDup(rs) ==> NoDup(r)
    decreases |ops|
  {
    if ops == [] then rs else AfterAll(After(rs, ops[0]), ops[1..])
  }

  /**
   Whatever happened before, and whatever happens between, unspecial undoes special on every OID that is not
   special.
   */
  lemma {:induction false} UnspecialUndoes(before: seq<Op>, m: Oid, between: seq<Op>)
    requires !IsSpecial(m)
    ensures var rs := AfterAll([], before);
            var rs' := AfterAll(AfterSpecial(rs, Some(m)), between);
            Unspecial(rs', Special(rs, Some(m))) == Some(m)
  {
  }

  /** Exactly the special forms of registered OIDs are taken apart; everything else is returned as it is. */
  lemma {:induction false} UnspecialExact(rs: seq<Oid>, m: Oid)
    ensures Unspecial(rs, None) == None
    ensures Unspecial(rs, Some(m)) == Some(m) <==> !exists r :: r in rs && m == BASE + r
    ensures forall r :: r in rs && m == BASE + r ==> Unspecial(rs, Some(m)) == Some(r)
  {
    if IsSpecial(m) { assert m == BASE + m[|BASE|..]; }
    forall r | r in rs && m == BASE + r ensures Unspecial(rs, Some(m)) == Some(r) && r != m {
      assert m[|BASE|..] == r && m[..|BASE|] == BASE;
    }
  }

  /** Without an OID the answer is the item registered first, from then on and for good. */
  lemma {:induction false} FirstForGood(m: Oid, later: seq<Op>)
    requires !IsSpecial(m)
    ensures Special([], None) == None
    ensures Special(AfterAll(AfterSpecial([], Some(m)), later), None) == Some(BASE + m)
  {
    assert AfterSpecial([], Some(m)) == [m];
    assert AfterAll([m], later)[0] == m;
  }

  /** What is offered for element i: itself if it is special, except when nothing is registered before it. */
  function OfferedFor(rs: seq<Oid>, ms: seq<Oid>, i: nat): Oid
    requires i < |ms|
  {
    if IsSpecial(ms[i]) && (rs != [] || i > 0) then ms[i] else BASE + ms[i]
  }

  ghost predicate IsOffered(rs: seq<Oid>, ms: seq<Oid>, x: Oid) {
    exists i :: 0 <= i < |ms| && OfferedFor(rs, ms, i) == x
  }

  lemma {:induction false} OfferedShift(rs: seq<Oid>, ms: seq<Oid>, x: Oid)
    requires ms != []
    ensures IsOffered(rs, ms, x) <==> OfferedFor(rs, ms, 0) == x || IsOffered(AfterElement(rs, ms[0]), ms[1..], x)
  {
    var rest := ms[1..];
    assert forall i :: 0 <= i < |rest| ==> OfferedFor(AfterElement(rs, ms[0]), rest, i) == OfferedFor(rs, ms, i + 1);
    if i :| 0 <= i < |ms| && OfferedFor(rs, ms, i) == x {
      if i > 0 { assert OfferedFor(AfterElement(rs, ms[0]), rest, i - 1) == x; }
    }
  }

  lemma {:induction false} OffersFrom(rs: seq<Oid>, ms: seq<Oid>, acc: seq<Oid>, x: Oid)
    requires NoDup(acc)
    ensures NoDup(Available(rs, ms, acc))
    ensures x in Available(rs, ms, acc) <==> x in acc || IsOffered(rs, ms, x)
    decreases |ms|
  {
    if ms != [] {
      var next := Include(acc, OfferedFor(rs, ms, 0));
      assert NoDup(next) && (x in next <==> x in acc || x == OfferedFor(rs, ms, 0));
      OffersFrom(AfterElement(rs, ms[0]), ms[1..], next, x);
      OfferedShift(rs, ms, x);
    }
  }

  /** The set offered has no duplicates and holds exactly what is offered for the elements. */
  lemma {:induction false} OffersExactly(rs: seq<Oid>, ms: seq<Oid>, x: Oid)
    ensures NoDup(Available(rs, ms, []))
    ensures x in Available(rs, ms, []) <==> IsOffered(rs, ms, x)
  {
    OffersFrom(rs, ms, [], x);
  }

  /** An OID is registered by an offer when it stands for an element that is not special, or for the very first one. */
  lemma {:induction false} RegistersExactly(rs: seq<Oid>, ms: seq<Oid>, x: Oid)
    ensures x in AfterAvailable(rs, ms) <==>
            x in rs || exists i :: 0 <= i < |ms| && ms[i] == x && OfferedFor(rs, ms, i) != x
    decreases |ms|
  {
    if ms != [] {
      var rs', rest := AfterElement(rs, ms[0]), ms[1..];
      RegistersExactly(rs', rest, x);
      assert x in rs' <==> x in rs || (ms[0] == x && OfferedFor(rs, ms, 0) != x);
      assert forall i :: 0 <= i < |rest| ==>
                           rest[i] == ms[i + 1] && OfferedFor(rs', rest, i) == OfferedFor(rs, ms, i + 1);
      if i :| 0 <= i < |ms| && ms[i] == x && OfferedFor(rs, ms, i) != x {
        if i > 0 { assert rest[i - 1] == x && OfferedFor(rs', rest, i - 1) != x; }
      }
    }
  }

  // ----- the linked list -----

  class Item {
    const regular: Oid
    const special: Oid
    var next: Item?
    var nextIsSet: bool

    constructor (n: Oid)
      ensures regular == n && special == BASE + n && next == null && !nextIsSet
    {
      regular := n;
      special := BASE + n;
      next, nextIsSet := null, false;
    }
  }

  /** The OID pointers that the functions return: none, the caller's own, or one inside an item. */
  datatype OidRef = NoOid | Own(oid: Oid) | SpecialOf(item: Item) | RegularOf(item: Item)

  function Pointed(r: OidRef): Option<Oid> {
    match r
    case NoOid => None
    case Own(oid) => Some(oid)
    case SpecialOf(item) => Some(item.special)
    case RegularOf(item) => Some(item.regular)
  }

  function Regulars(items: seq<Item>): (rs: seq<Oid>)
    ensures |rs| == |items|
  {
    seq(|items|, i requires 0 <= i < |items| => items[i].regular)
  }

  class Registry {
    var head: Item?
    var headIsSet: bool
    ghost var items: seq<Item>

    /** The pointers and flags link the items in order. */
    ghost predicate Chain()
      reads this, (set it | it in items)
    {
      && headIsSet == (items != [])
      && (items != [] ==> head == items[0])
      && (forall i :: 0 <= i < |items| ==> items[i].nextIsSet == (i + 1 < |items|))
      && (forall i :: 0 <= i < |items| - 1 ==> items[i].next == items[i + 1])
      && NoDup(items)
    }

    /** Moreover every item pairs an OID with its special form, and no OID has two items. */
    ghost predicate Valid()
      reads this, (set it | it in items)
    {
      && Chain()
      && (forall i :: 0 <= i < |items| ==> items[i].special == BASE + items[i].regular)
      && NoDup(Regulars(items))
    }

    constructor ()
      ensures Valid() && items == []
    {
      head, headIsSet, items := null, false, [];
    }

    /** gpp_get_special_oids. */
    method First() returns (item: Item?)
      requires Chain()
      ensures item == if items == [] then null else items[0]
    {
      item := if headIsSet then head else null;
    }

    /** gpp_next_special_oids. */
    method Next(item: Item, ghost k: nat) returns (next: Item?)
      requires Chain() && k < |items| && items[k] == item
      ensures next == if k + 1 < |items| then items[k + 1] else null
    {
      next := if item.nextIsSet then item.next else null;
    }

    /** gpp_last_special_oids. */
    method Last(list: Item) returns (last: Item)
      requires Chain() && items != [] && list == items[0]
      ensures last == items[|items| - 1]
    {
      last := list;
      ghost var k := 0;
      while last.nextIsSet
        invariant 0 <= k < |items| && last == items[k]
        decreases |items| - k
      {
        assert last.next == items[k + 1];
        last := last.next;
        k := k + 1;
      }
    }

    /** gpp_add_special_oids. */
    method Add(item: Item)
      requires Chain() && item !in items && !item.nextIsSet
      modifies this, (set it | it in items)
      ensures Chain() && items == old(items) + [item]
    {
      var list := First();
      if list == null {
        head := item;
        headIsSet := true;
      } else {
        var last := Last(list);
        last.next := item;
        last.nextIsSet := true;
      }
      items := items + [item];
    }

    /** gpp_new_special_mech; on an OID that has no item yet it keeps the registry valid. */
    method NewSpecial(n: Oid) returns (item: Item)
      requires Chain()
      modifies this, (set it | it in items)
      ensures Chain() && fresh(item) && items == old(items) + [item] && item.regular == n && item.special == BASE + n
      ensures Regulars(items) == old(Regulars(items)) + [n]
      ensures old(Valid()) && n !in old(Regulars(items)) ==> Valid()
    {
      item := new Item(n);
      Add(item);
      assert Regulars(items) == old(Regulars(items)) + [n];
    }

    /** The search loop of gpp_special_mech: the item of a regular OID, if there is one. */
    method Find(n: Oid) returns (item: Item?)
      requires Valid()
      ensures item == null <==> n !in Regulars(items)
      ensures item != null ==> item in items && item.regular == n && item.special == BASE + n
    {
      item := First();
      ghost var k := 0;
      while item != null
        invariant 0 <= k <= |items| && item == if k < |items| then items[k] else null
        invariant n !in Regulars(items)[..k]
        decreases |items| - k
      {
        assert item.special[|BASE|..] == item.regular;
        if |item.special| - |BASE| == |n| && item.special[|BASE|..] == n {
          assert Regulars(items)[k] == n;
          return;
        }
        item := Next(item, k);
        k := k + 1;
      }
    }

    /** gpp_special_mech. */
    method SpecialMech(m: Option<Oid>) returns (r: OidRef)
      requires Valid()
      modifies this, (set it | it in items)
      ensures Valid() && old(items) <= items && forall it :: it in items && it !in old(items) ==> fresh(it)
      ensures Regulars(items) == AfterSpecial(old(Regulars(items)), m)
      ensures Pointed(r) == Special(old(Regulars(items)), m)
      ensures r.SpecialOf? ==> r.item in items
      ensures m.Some? && !IsSpecial(m.value) ==> r.SpecialOf? && r.item.regular == m.value
    {
      if m.Some? && IsSpecial(m.value) {
        return Own(m.value);
      }
      if m.None? {
        var item := First();
        return if item != null then SpecialOf(item) else NoOid;
      }
      var item := Find(m.value);
      if item == null {
        item := NewSpecial(m.value);
      }
      return SpecialOf(item);
    }

    /** gpp_unspecial_mech. */
    method UnspecialMech(m: Option<Oid>) returns (r: OidRef)
      requires Valid()
      ensures Pointed(r) == Unspecial(Regulars(items), m)
    {
      if m.None? {
        return NoOid;
      }
      if !IsSpecial(m.value) {
        return Own(m.value);
      }
      var item := First();
      ghost var k := 0;
      while item != null
        invariant 0 <= k <= |items| && item == if k < |items| then items[k] else null
        invariant m.value[|BASE|..] !in Regulars(items)[..k]
        decreases |items| - k
      {
        assert item.special[|BASE|..] == item.regular;
        if item.special == m.value {
          assert Regulars(items)[k] == m.value[|BASE|..];
          return RegularOf(item);
        }
        assert m.value == BASE + m.value[|BASE|..];
        item := Next(item, k);
        k := k + 1;
      }
      return Own(m.value);
    }

    /** One element of gpp_special_available_mechs: the OID to offer for it. */
    method OfferElement(m: Oid) returns (r: OidRef)
      requires Valid()
      modifies this, (set it | it in items)
      ensures Valid() && old(items) <= items && forall it :: it in items && it !in old(items) ==> fresh(it)
      ensures Regulars(items) == AfterElement(old(Regulars(items)), m)
      ensures Pointed(r) == Some(if IsSpecial(m) && old(items) != [] then m else BASE + m)
    {
      var item := First();
      if item != null && IsSpecial(m) {
        return Own(m);
      }
      item := Find(m);
      if item == null {
        item := NewSpecial(m);
      }
      return SpecialOf(item);
    }

    /** gpp_special_available_mechs; None stands for the missing set that an empty result becomes. */
    method AvailableMechs(ms: seq<Oid>) returns (r: Option<seq<Oid>>)
      requires Valid()
      modifies this, (set it | it in items)
      ensures Valid() && old(items) <= items && forall it :: it in items && it !in old(items) ==> fresh(it)
      ensures Regulars(items) == AfterAvailable(old(Regulars(items)), ms)
      ensures r == if ms == [] then None else Some(Available(old(Regulars(items)), ms, []))
    {
      var acc: seq<Oid> := [];
      ghost var rs := Regulars(items);
      for i := 0 to |ms|
        invariant Valid() && old(items) <= items && forall it :: it in items && it !in old(items) ==> fresh(it)
        invariant AfterAvailable(rs, ms) == AfterAvailable(Regulars(items), ms[i..])
        invariant Available(rs, ms, []) == Available(Regulars(items), ms[i..], acc)
        invariant i > 0 ==> acc != []
      {
        assert ms[i..][1..] == ms[i + 1..];
        var offered := OfferElement(ms[i]);
        acc := Include(acc, Pointed(offered).value);
      }
      r := if acc == [] then None else Some(acc);
    }

    /** gpp_init_special_available_mechs: the same registrations, and no set. */
    method InitAvailableMechs(ms: seq<Oid>)
      requires Valid()
      modifies this, (set it | it in items)
      ensures Valid() && old(items) <= items && forall it :: it in items && it !in old(items) ==> fresh(it)
      ensures Regulars(items) == AfterAvailable(old(Regulars(items)), ms)
    {
      ghost var rs := Regulars(items);
      for i := 0 to |ms|
        invariant Valid() && old(items) <= items && forall it :: it in items && it !in old(items) ==> fresh(it)
        invariant AfterAvailable(rs, ms) == AfterAvailable(Regulars(items), ms[i..])
      {
        assert ms[i..][1..] == ms[i + 1..];
        var item := First();
        if item == null || !IsSpecial(ms[i]) {
          item := Find(ms[i]);
          if item == null {
            item := NewSpecial(ms[i]);
          }
        }
      }
    }

    /** An OID has one item, whichever call returned it and whenever. */
    lemma {:induction false} OneItem(a: Item, b: Item)
      requires Valid() && a in items && b in items && (a.regular == b.regular || a.special == b.special)
      ensures a == b
    {
      var i :| 0 <= i < |items| && items[i] == a;
      var j :| 0 <= j < |items| && items[j] == b;
      assert a.special[|BASE|..] == a.regular && b.special[|BASE|..] == b.regular;
      assert Regulars(items)[i] == Regulars(items)[j];
    }

    /** Any of the operations. */
    method Perform(op: Op)
      requires Valid()
      modifies this, (set it | it in items)
      ensures Valid() && old(items) <= items && forall it :: it in items && it !in old(items) ==> fresh(it)
      ensures Regulars(items) == After(old(Regulars(items)), op)
    {
      match op
      case SpecialMech(m) => var r := SpecialMech(m);
      case UnspecialMech(m) => var r := UnspecialMech(m);
      case AvailableMechs(ms) => var r := AvailableMechs(ms);
    }

    /** Whatever happens between, gpp_special_mech returns the same pointer for an OID that is not special. */
    method SpecialForever(m: Oid, between: seq<Op>) returns (first: OidRef, second: OidRef)
      requires Valid() && !IsSpecial(m)
      modifies this, (set it | it in items)
      ensures Valid() && first.SpecialOf? && first.item.regular == m && second == first
    {
      first := SpecialMech(Some(m));
      for i := 0 to |between|
        invariant Valid() && first.SpecialOf? && first.item in items && first.item.regular == m
        invariant forall it :: it in items && it !in old(items) ==> fresh(it)
      {
        Perform(between[i]);
      }
      second := SpecialMech(Some(m));
      OneItem(first.item, second.item);
    }
  }
}
