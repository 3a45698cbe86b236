/** The temporary phone-number registry: a table from phone number to the
    number's record, updated in place. The random draw and the clock are
    parameters; times are milliseconds since the epoch. */
module Phone {
  import opened Text

  /** A day in milliseconds: how long an acquired number is held. */
  const DayMillis: int := 24 * 60 * 60 * 1000

  /** One acquired number. Only `active` changes after creation. */
  class TempPhoneNumber {
    const phoneNumber: string
    const expiresAt: int
    var active: bool

    constructor(phoneNumber: string, expiresAt: int)
      ensures this.phoneNumber == phoneNumber && this.expiresAt == expiresAt && active
    {
      this.phoneNumber := phoneNumber;
      this.expiresAt := expiresAt;
      active := true;
    }
  }

  /** The ten-digit integer `Math.floor(draw * 9000000000 + 1000000000)`, for a
      draw from [0, 1), computed over the reals. */
  function RandomTen(draw: real): (n: nat)
    requires 0.0 <= draw < 1.0
    ensures 1000000000 <= n <= 9999999999
  {
    (draw * 9000000000.0 + 1000000000.0).Floor
  }

  /** The number `acquireNumber` draws: `+1` and the ten digits. */
  function PhoneNumberOf(draw: real): string
    requires 0.0 <= draw < 1.0
  {
    "+1" + NatToString(RandomTen(draw))
  }

  /** A drawn number is `+1` followed by exactly ten digits that read back as
      the drawn integer, so it lies in [1000000000, 9999999999]. */
  lemma {:induction false} PhoneNumberShape(draw: real)
    requires 0.0 <= draw < 1.0
    ensures var s := PhoneNumberOf(draw);
      && |s| == 12 && s[..2] == "+1" && AllDigits(s[2..])
      && DigitsValue(s[2..]) == RandomTen(draw)
      && 1000000000 <= DigitsValue(s[2..]) <= 9999999999
  {
    var n := RandomTen(draw);
    assert Pow10(9) == 1000000000 && Pow10(10) == 10000000000 by {
      assert Pow10(1) == 10 && Pow10(2) == 100 && Pow10(3) == 1000;
      assert Pow10(6) == 1000000;
    }
    NatToStringLength(n, 9);
    NatToStringRoundTrip(n);
    var s := PhoneNumberOf(draw);
    assert s[2..] == NatToString(n);
  }

  /** `s` without the element `x`. */
  function RemoveKey(s: seq<string>, x: string): seq<string> {
    if s == [] then [] else (if s[0] == x then [] else [s[0]]) + RemoveKey(s[1..], x)
  }

  /** RemoveKey keeps exactly the other elements. */
  lemma {:induction false} RemoveKeyMembers(s: seq<string>, x: string)
    ensures forall y :: y in RemoveKey(s, x) <==> y in s && y != x
  {
    if s != [] {
      RemoveKeyMembers(s[1..], x);
      assert s == [s[0]] + s[1..];
    }
  }

  /** The keys of `s` whose entry in `m` has not expired at `now`, in order. */
  function Unexpired(s: seq<string>, m: map<string, TempPhoneNumber>, now: int): seq<string> {
    if s == [] then []
    else
      (if s[0] in m && m[s[0]].expiresAt < now then [] else [s[0]]) + Unexpired(s[1..], m, now)
  }

  /** Unexpired keeps exactly the keys that have not expired. */
  lemma {:induction false} UnexpiredMembers(s: seq<string>, m: map<string, TempPhoneNumber>, now: int)
    ensures forall y :: y in Unexpired(s, m, now) <==> y in s && (y in m ==> m[y].expiresAt >= now)
  {
    if s != [] {
      UnexpiredMembers(s[1..], m, now);
      assert s == [s[0]] + s[1..];
    }
  }

  predicate Distinct(s: seq<string>) {
    forall i, j :: 0 <= i < j < |s| ==> s[i] != s[j]
  }

  /** Removing an element keeps the others distinct. */
  lemma {:induction false} RemoveKeyDistinct(s: seq<string>, x: string)
    requires Distinct(s)
    ensures Distinct(RemoveKey(s, x))
  {
    if s != [] {
      RemoveKeyDistinct(s[1..], x);
      RemoveKeyMembers(s[1..], x);
      assert s[0] !in s[1..] by {
        forall j | 0 <= j < |s[1..]| ensures s[1..][j] != s[0] {
          assert s[1..][j] == s[j + 1];
        }
      }
    }
  }

  /** Filtering keeps the keys distinct. */
  lemma {:induction false} UnexpiredDistinct(s: seq<string>, m: map<string, TempPhoneNumber>, now: int)
    requires Distinct(s)
    ensures Distinct(Unexpired(s, m, now))
  {
    if s != [] {
      UnexpiredDistinct(s[1..], m, now);
      UnexpiredMembers(s[1..], m, now);
      assert s[0] !in s[1..] by {
        forall j | 0 <= j < |s[1..]| ensures s[1..][j] != s[0] {
          assert s[1..][j] == s[j + 1];
        }
      }
    }
  }

  /** A distinct sequence has as many elements as the set of its elements. */
  lemma {:induction false} DistinctCard(s: seq<string>, keys: set<string>)
    requires Distinct(s) && forall y :: y in s <==> y in keys
    ensures |s| == |keys|
  {
    if s != [] {
      var rest := s[1..];
      assert Distinct(rest) by {
        forall i, j | 0 <= i < j < |rest| ensures rest[i] != rest[j] {
          assert rest[i] == s[i + 1] && rest[j] == s[j + 1];
        }
      }
      assert s[0] !in rest by {
        forall j | 0 <= j < |rest| ensures rest[j] != s[0] {
          assert rest[j] == s[j + 1];
        }
      }
      forall y ensures y in rest <==> y in keys - {s[0]} {
        if y in rest {
          var j :| 0 <= j < |rest| && rest[j] == y;
          assert s[j + 1] == y;
        }
        if y in keys - {s[0]} {
          var j :| 0 <= j < |s| && s[j] == y;
          assert j > 0 && rest[j - 1] == y;
        }
      }
      DistinctCard(rest, keys - {s[0]});
    }
  }

  /** The registry. `order` lists the keys of `activeNumbers` in insertion
      order, the order in which a JavaScript `Map` iterates them. */
  class TempPhoneService {
    var activeNumbers: map<string, TempPhoneNumber>
    var order: seq<string>

    /** Every stored record is filed under its own number and is active, and
        `order` lists every key once. */
    ghost predicate Valid()
      reads this, activeNumbers.Values
    {
      && (forall k :: k in activeNumbers ==> activeNumbers[k].phoneNumber == k && activeNumbers[k].active)
      && (forall k :: k in order <==> k in activeNumbers)
      && Distinct(order)
    }

    constructor()
      ensures Valid() && activeNumbers == map[] && order == []
    {
      activeNumbers := map[];
      order := [];
    }

    /** `acquireNumber()`: draws a number, files a fresh active record for it
        expiring a day after `now`, and returns the record. A number already
        filed is overwritten and keeps its place in the iteration order. */
    method AcquireNumber(draw: real, now: int) returns (t: TempPhoneNumber)
      requires Valid() && 0.0 <= draw < 1.0
      modifies this
      ensures Valid() && fresh(t)
      ensures t.phoneNumber == PhoneNumberOf(draw) && t.expiresAt == now + DayMillis && t.active
      ensures activeNumbers == old(activeNumbers)[t.phoneNumber := t]
      ensures order == if t.phoneNumber in old(activeNumbers) then old(order) else old(order) + [t.phoneNumber]
    {
      var randomNumber := PhoneNumberOf(draw);
      t := new TempPhoneNumber(randomNumber, now + DayMillis);
      if randomNumber !in activeNumbers {
        order := order + [randomNumber];
      }
      activeNumbers := activeNumbers[randomNumber := t];
    }

    /** `releaseNumber(phoneNumber)`: reports whether the number was filed;
        if it was, marks its record inactive and removes it. */
    method ReleaseNumber(phoneNumber: string) returns (released: bool)
      requires Valid()
      modifies this, if phoneNumber in activeNumbers then {activeNumbers[phoneNumber]} else {}
      ensures Valid()
      ensures released <==> phoneNumber in old(activeNumbers)
      ensures released ==> !old(activeNumbers)[phoneNumber].active
      ensures activeNumbers == old(activeNumbers) - {phoneNumber}
      ensures order == RemoveKey(old(order), phoneNumber)
      ensures !released ==> activeNumbers == old(activeNumbers) && order == old(order)
    {
      if phoneNumber in activeNumbers {
        var number := activeNumbers[phoneNumber];
        number.active := false;
        activeNumbers := activeNumbers - {phoneNumber};
        RemoveKeyDistinct(order, phoneNumber);
        RemoveKeyMembers(order, phoneNumber);
        order := RemoveKey(order, phoneNumber);
        return true;
      }
      RemoveKeyAbsent(order, phoneNumber);
      return false;
    }

    /** `listActiveNumbers()`: the records in iteration order, one per key. */
    method ListActiveNumbers() returns (numbers: seq<TempPhoneNumber>)
      requires Valid()
      ensures |numbers| == |order| == |activeNumbers|
      ensures forall i :: 0 <= i < |numbers| ==> numbers[i] == activeNumbers[order[i]]
      ensures forall k :: k in activeNumbers ==> activeNumbers[k] in numbers
      ensures forall i :: 0 <= i < |numbers| ==> numbers[i].active
    {
      DistinctCard(order, activeNumbers.Keys);
      numbers := [];
      var i := 0;
      while i < |order|
        invariant 0 <= i <= |order|
        invariant |numbers| == i
        invariant forall j :: 0 <= j < i ==> numbers[j] == activeNumbers[order[j]]
      {
        numbers := numbers + [activeNumbers[order[i]]];
        i := i + 1;
      }
      forall k | k in activeNumbers ensures activeNumbers[k] in numbers {
        var j :| 0 <= j < |order| && order[j] == k;
        assert numbers[j] == activeNumbers[k];
      }
    }

    /** `cleanup()` at time `now`: releases, in iteration order, every number
        whose expiry is strictly before `now`, and keeps every other one. */
    method Cleanup(now: int)
      requires Valid()
      modifies this, activeNumbers.Values
      ensures Valid()
      ensures forall k :: k in activeNumbers <==> k in old(activeNumbers) && old(activeNumbers)[k].expiresAt >= now
      ensures forall k :: k in activeNumbers ==> activeNumbers[k] == old(activeNumbers)[k]
      ensures order == Unexpired(old(order), old(activeNumbers), now)
      ensures forall k :: k in old(activeNumbers) && old(activeNumbers)[k].expiresAt < now ==> !old(activeNumbers)[k].active
    {
      var keys := order;
      ghost var m0 := activeNumbers;
      var i := 0;
      while i < |keys|
        invariant Valid() && i <= |keys| && Visited(keys, i, m0, now)
      {
        VisitEntry(keys, i, m0, now);
        i := i + 1;
      }
      assert keys[..i] == keys && keys[i..] == [];
      assert order == Unexpired(keys, m0, now);
      UnexpiredMembers(keys, m0, now);
    }

    /** What the cleanup loop over the snapshot `keys` of the table `m0` keeps
        after visiting the first `i` keys: the table holds the untouched records
        of `m0` still filed, the iteration order is the unexpired visited keys
        followed by the unvisited ones, and every removed record is inactive. */
    ghost predicate Visited(keys: seq<string>, i: nat, m0: map<string, TempPhoneNumber>, now: int)
      reads this, m0.Values
    {
      && i <= |keys| && Distinct(keys) && (forall k :: k in keys <==> k in m0)
      && (forall k :: k in m0 ==> m0[k].phoneNumber == k)
      && (forall k :: k in activeNumbers ==> k in m0 && activeNumbers[k] == m0[k])
      && order == Unexpired(keys[..i], m0, now) + keys[i..]
      && (forall k :: k in m0 && k !in activeNumbers ==> !m0[k].active)
    }

    /** The body of the cleanup loop for key `i`: releases it if it has expired. */
    method VisitEntry(keys: seq<string>, i: nat, ghost m0: map<string, TempPhoneNumber>, now: int)
      requires Valid() && i < |keys| && Visited(keys, i, m0, now)
      modifies this, m0.Values
      ensures Valid() && Visited(keys, i + 1, m0, now)
    {
      var number := keys[i];
      OrderStep(keys, i, m0, now);
      assert number in order;
      if number in activeNumbers && activeNumbers[number].expiresAt < now {
        assert activeNumbers[number] in m0.Values;
        var released := ReleaseNumber(number);
      }
    }
  }

  /** One step of the cleanup loop over the keys `keys`: after the first `i`
      keys were visited, the iteration order is the unexpired ones among them
      followed by the rest; visiting key `i` keeps that shape. */
  lemma {:induction false} OrderStep(keys: seq<string>, i: nat, m: map<string, TempPhoneNumber>, now: int)
    requires Distinct(keys) && i < |keys|
    ensures keys[i] !in keys[..i]
    ensures var x := keys[i];
      x in m && m[x].expiresAt < now ==>
        RemoveKey(Unexpired(keys[..i], m, now) + keys[i..], x) == Unexpired(keys[..i + 1], m, now) + keys[i + 1..]
    ensures var x := keys[i];
      !(x in m && m[x].expiresAt < now) ==>
        Unexpired(keys[..i], m, now) + keys[i..] == Unexpired(keys[..i + 1], m, now) + keys[i + 1..]
  {
    var x := keys[i];
    assert keys[..i + 1] == keys[..i] + [x];
    assert keys[i..] == [x] + keys[i + 1..];
    UnexpiredSnoc(keys[..i], x, m, now);
    assert x !in keys[..i] by {
      forall j | 0 <= j < i ensures keys[..i][j] != x {
        assert keys[..i][j] == keys[j];
      }
    }
    var rest := keys[i + 1..];
    assert x !in rest by {
      forall j | 0 <= j < |rest| ensures rest[j] != x {
        assert rest[j] == keys[i + 1 + j];
      }
    }
    var u := Unexpired(keys[..i], m, now);
    UnexpiredMembers(keys[..i], m, now);
    if x in m && m[x].expiresAt < now {
      RemoveKeyJoin(u, x, keys[i + 1..]);
    } else {
      assert u + ([x] + keys[i + 1..]) == (u + [x]) + keys[i + 1..];
    }
  }

  /** Filtering a sequence with one more element at its end. */
  lemma {:induction false} UnexpiredSnoc(s: seq<string>, x: string, m: map<string, TempPhoneNumber>, now: int)
    ensures Unexpired(s + [x], m, now)
      == Unexpired(s, m, now) + (if x in m && m[x].expiresAt < now then [] else [x])
  {
    if s == [] {
      assert [] + [x] == [x];
    } else {
      assert (s + [x])[1..] == s[1..] + [x];
      UnexpiredSnoc(s[1..], x, m, now);
    }
  }

  /** Removing `x` from `a + [x] + b` where only that one occurrence is `x`. */
  lemma {:induction false} RemoveKeyJoin(a: seq<string>, x: string, b: seq<string>)
    requires x !in a && x !in b
    ensures RemoveKey(a + ([x] + b), x) == a + b
  {
    if a == [] {
      assert a + ([x] + b) == [x] + b;
      assert ([x] + b)[1..] == b;
      RemoveKeyAbsent(b, x);
    } else {
      assert a[0] in a;
      assert forall y :: y in a[1..] ==> y in a;
      assert (a + ([x] + b))[1..] == a[1..] + ([x] + b);
      RemoveKeyJoin(a[1..], x, b);
      assert [a[0]] + (a[1..] + b) == a + b;
    }
  }

  /** Removing an absent element changes nothing. */
  lemma {:induction false} RemoveKeyAbsent(s: seq<string>, x: string)
    requires x !in s
    ensures RemoveKey(s, x) == s
  {
    if s != [] {
      assert s[0] in s;
      assert forall y :: y in s[1..] ==> y in s;
      RemoveKeyAbsent(s[1..], x);
      assert [s[0]] + s[1..] == s;
    }
  }
}
