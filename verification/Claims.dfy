/** The process's record of which application runs on which database: a reference
    count per database address, changed under one mutex, with a once-only receipt for
    each lifecycle.  Every method below is one critical section of that mutex, so any
    interleaving of callers is some order of these calls. */
module ClaimsSpec {
  /** One application's grip on one database. */
  datatype Hold = Hold(app: string, composition: string, lifecycles: int)

  type Record = map<string, Hold>

  /** Free, or held by this application with this composition. */
  predicate Accepts(record: Record, key: string, app: string, composition: string) {
    key in record ==> record[key].app == app && record[key].composition == composition
  }

  function Claimed(record: Record, key: string, app: string, composition: string): Record
    requires Accepts(record, key, app, composition)
  {
    record[key := Hold(app, composition, if key in record then record[key].lifecycles + 1 else 1)]
  }

  function Released(record: Record, key: string): Record
    requires key in record
  {
    var hold := record[key].(lifecycles := record[key].lifecycles - 1);
    if hold.lifecycles <= 0 then record - {key} else record[key := hold]
  }

  /** Giving back what was just taken restores the record. */
  lemma ReleaseUndoesClaim(record: Record, key: string, app: string, composition: string)
    requires Accepts(record, key, app, composition)
    requires key in record ==> record[key].lifecycles > 0
    ensures Released(Claimed(record, key, app, composition), key) == record
  {
    var claimed := Claimed(record, key, app, composition);
    if key !in record {
      assert claimed - {key} == record;
    } else {
      assert Released(claimed, key) == claimed[key := record[key]];
    }
  }

  /** A claim and a release on one record commute, wherever both can happen. */
  lemma ClaimsAndReleasesCommute(record: Record, k: string, app: string, composition: string, j: string)
    requires Accepts(record, k, app, composition) && j in record && record[j].lifecycles > 0
    requires k != j || record[j].lifecycles > 1
    ensures Accepts(Released(record, j), k, app, composition)
    ensures Claimed(Released(record, j), k, app, composition) == Released(Claimed(record, k, app, composition), j)
  {
    var a := Claimed(Released(record, j), k, app, composition);
    var b := Released(Claimed(record, k, app, composition), j);
    assert a.Keys == b.Keys;
    assert forall x :: x in a ==> a[x] == b[x];
  }
}

module Claims {
  import opened ClaimsSpec

  class Holding {
    const app: string
    const composition: string
    var lifecycles: int

    constructor (app: string, composition: string)
      ensures this.app == app && this.composition == composition && lifecycles == 1
    {
      this.app, this.composition, lifecycles := app, composition, 1;
    }
  }

  /** One lifecycle's receipt: whose hold it took, where, and whether it came back. */
  class Held {
    const grip: Holding
    const at: string
    var done: bool

    constructor (grip: Holding, at: string)
      ensures this.grip == grip && this.at == at && !done
    {
      this.grip, this.at, done := grip, at, false;
    }
  }

  class DatabaseClaims {
    var byKey: map<string, Holding>
    ghost var receipts: set<Held>

    /** The unreleased receipts on one database. */
    ghost function Live(key: string): set<Held>
      reads this, receipts
    {
      set r | r in receipts && !r.done && r.at == key
    }

    ghost predicate CountRight(key: string)
      reads this, receipts, byKey.Values
    {
      if key in byKey then byKey[key].lifecycles == |Live(key)| && byKey[key].lifecycles > 0 else Live(key) == {}
    }

    /** Every entry counts its unreleased receipts, an entry exists exactly while that
        count is positive, and each unreleased receipt grips the entry at its address. */
    ghost predicate Valid()
      reads this, receipts, byKey.Values
    {
      && (forall key :: CountRight(key))
      && (forall r :: r in receipts && !r.done ==> r.at in byKey && byKey[r.at] == r.grip)
      && (forall j, k :: j in byKey && k in byKey && byKey[j] == byKey[k] ==> j == k)
    }

    ghost function Abstract(): Record
      reads this, byKey.Values
    {
      map k | k in byKey :: HoldAt(k)
    }

    ghost function HoldAt(key: string): Hold
      requires key in byKey
      reads this, byKey.Values
    {
      Hold(byKey[key].app, byKey[key].composition, byKey[key].lifecycles)
    }

    lemma AbstractIs(record: Record)
      requires record.Keys == byKey.Keys && forall k :: k in byKey ==> record[k] == HoldAt(k)
      ensures Abstract() == record
    {
      assert Abstract().Keys == record.Keys;
    }

    constructor ()
      ensures Valid() && Abstract() == map[] && receipts == {}
    {
      byKey, receipts := map[], {};
    }

    /** Records a lifecycle, or refuses it and changes nothing. */
    method Claim(key: string, app: string, composition: string) returns (receipt: Held?)
      requires Valid()
      modifies this, byKey.Values
      ensures Valid()
      ensures receipt != null <==> Accepts(old(Abstract()), key, app, composition)
      ensures receipt == null ==> Abstract() == old(Abstract()) && receipts == old(receipts)
      ensures receipt != null ==> Abstract() == Claimed(old(Abstract()), key, app, composition)
      ensures receipt != null ==> fresh(receipt) && !receipt.done && receipt.at == key && receipts == old(receipts) + {receipt}
      ensures receipt != null ==> receipt.grip.app == app && receipt.grip.composition == composition
    {
      if key in byKey && (byKey[key].app != app || byKey[key].composition != composition) {
        return null;
      }
      if key in byKey {
        receipt := Join(key);
      } else {
        receipt := Open(key, app, composition);
      }
    }

    /** No receipt came back and no other hold's count moved. */
    twostate predicate OthersStand(key: string)
      reads this, receipts, byKey.Values
    {
      && (forall r :: r in old(receipts) ==> r in receipts)
      && (forall r :: r in old(receipts) && r.at != key ==> r.done == old(r.done))
      && (forall k :: k != key ==> (k in byKey <==> k in old(byKey)))
      && (forall k :: k in byKey && k != key ==> byKey[k] == old(byKey[k]) && byKey[k].lifecycles == old(byKey[k].lifecycles))
    }

    /** What moves at one address leaves every other count right. */
    twostate lemma OthersCount(key: string)
      requires old(Valid()) && OthersStand(key)
      requires forall r :: r in receipts && r !in old(receipts) ==> r.at == key
      ensures forall k :: k != key ==> CountRight(k)
    {
      forall k | k != key ensures CountRight(k) {
        assert Live(k) == old(Live(k)) && old(CountRight(k));
      }
    }

    twostate lemma JoinCounts(key: string, new receipt: Held)
      requires old(Valid()) && OthersStand(key) && byKey == old(byKey) && key in byKey
      requires receipts == old(receipts) + {receipt} && receipt !in old(receipts)
      requires receipt.at == key && receipt.grip == byKey[key] && !receipt.done
      requires forall r :: r in old(receipts) ==> r.done == old(r.done)
      requires byKey[key].lifecycles == old(byKey[key].lifecycles) + 1
      ensures Valid()
    {
      assert old(CountRight(key));
      OneMoreLive(key, receipt);
      OthersCount(key);
    }

    twostate lemma OneMoreLive(key: string, new receipt: Held)
      requires receipts == old(receipts) + {receipt} && receipt !in old(receipts) && receipt.at == key && !receipt.done
      requires forall r :: r in old(receipts) ==> r.done == old(r.done)
      ensures |Live(key)| == |old(Live(key))| + 1
    {
      assert Live(key) == old(Live(key)) + {receipt};
    }

    /** One more lifecycle of the application already holding the database. */
    method Join(key: string) returns (receipt: Held)
      requires Valid() && key in byKey
      modifies this`receipts, byKey[key]
      ensures Valid()
      ensures Abstract() == Claimed(old(Abstract()), key, byKey[key].app, byKey[key].composition)
      ensures fresh(receipt) && !receipt.done && receipt.at == key && receipt.grip == byKey[key]
      ensures receipts == old(receipts) + {receipt}
    {
      ghost var record := Claimed(Abstract(), key, byKey[key].app, byKey[key].composition);
      receipt := new Held(byKey[key], key);
      byKey[key].lifecycles := byKey[key].lifecycles + 1;
      receipts := receipts + {receipt};
      assert forall k :: k in byKey && k != key ==> byKey[k] != byKey[key];
      JoinCounts(key, receipt);
      assert forall k :: k in byKey ==> record[k] == HoldAt(k);
      AbstractIs(record);
    }

    twostate lemma OpenCounts(key: string, new prior: Holding, new receipt: Held)
      requires old(Valid()) && OthersStand(key) && key !in old(byKey) && byKey == old(byKey)[key := prior]
      requires forall k :: k in old(byKey) ==> byKey[k] != prior
      requires receipts == old(receipts) + {receipt} && receipt !in old(receipts)
      requires receipt.at == key && receipt.grip == prior && !receipt.done && prior.lifecycles == 1
      requires forall r :: r in old(receipts) ==> r.done == old(r.done)
      ensures Valid()
    {
      assert old(CountRight(key)) && Live(key) == {receipt};
      OthersCount(key);
    }

    /** The first lifecycle on a free database. */
    method Open(key: string, app: string, composition: string) returns (receipt: Held)
      requires Valid() && key !in byKey
      modifies this
      ensures Valid()
      ensures Abstract() == Claimed(old(Abstract()), key, app, composition)
      ensures fresh(receipt) && !receipt.done && receipt.at == key
      ensures receipt.grip.app == app && receipt.grip.composition == composition
      ensures receipts == old(receipts) + {receipt}
    {
      ghost var record := Claimed(Abstract(), key, app, composition);
      var prior := new Holding(app, composition);
      receipt := new Held(prior, key);
      byKey, receipts := byKey[key := prior], receipts + {receipt};
      OpenCounts(key, prior, receipt);
      assert forall k :: k in byKey ==> record[k] == HoldAt(k);
      AbstractIs(record);
    }

    /** What one receipt given back leaves: its hold counts one less, and is gone at none. */
    twostate lemma ReleaseCounts(receipt: Held)
      requires old(Valid()) && OthersStand(receipt.at) && receipts == old(receipts)
      requires receipt in receipts && !old(receipt.done) && receipt.done
      requires forall r :: r in receipts && r != receipt ==> r.done == old(r.done)
      requires receipt.at in old(byKey) && receipt.grip == old(byKey[receipt.at])
      requires receipt.grip.lifecycles == old(receipt.grip.lifecycles) - 1
      requires byKey == if receipt.grip.lifecycles <= 0 then old(byKey) - {receipt.at} else old(byKey)
      ensures Valid()
    {
      assert receipt in old(Live(receipt.at)) && Live(receipt.at) == old(Live(receipt.at)) - {receipt};
      assert old(CountRight(receipt.at)) && receipt.grip.lifecycles == |Live(receipt.at)|;
      forall r | r in receipts && !r.done ensures r.at in byKey && byKey[r.at] == r.grip {
        assert r in Live(r.at);
      }
      OthersCount(receipt.at);
    }

    /** Drops the grip; the guard on the entry never fails. */
    method Drop(receipt: Held)
      requires Valid() && receipt in receipts && !receipt.done
      modifies this`byKey, receipt.grip, receipt`done
      ensures Valid()
      ensures old(receipt.at in byKey) && Abstract() == Released(old(Abstract()), receipt.at)
      ensures receipt.done
    {
      assert byKey[receipt.at] == receipt.grip;
      ghost var record := Released(Abstract(), receipt.at);
      receipt.done := true;
      receipt.grip.lifecycles := receipt.grip.lifecycles - 1;
      if receipt.grip.lifecycles <= 0 {
        assert receipt.at in byKey && byKey[receipt.at] == receipt.grip;
        if receipt.at in byKey && byKey[receipt.at] == receipt.grip {
          byKey := byKey - {receipt.at};
        }
      }
      ReleaseCounts(receipt);
      assert forall k :: k in byKey ==> record[k] == HoldAt(k);
      AbstractIs(record);
    }

    /** Drops a lifecycle's grip once, however often its receipt comes back. */
    method Release(receipt: Held?)
      requires Valid()
      requires receipt != null ==> receipt in receipts
      modifies this, byKey.Values, receipt
      ensures Valid() && receipts == old(receipts)
      ensures receipt == null || old(receipt.done) ==> Abstract() == old(Abstract())
      ensures receipt != null && !old(receipt.done) ==>
                old(receipt.at in byKey) && Abstract() == Released(old(Abstract()), receipt.at)
      ensures receipt != null ==> receipt.done
      ensures forall r :: r in receipts && r != receipt ==> r.done == old(r.done)
    {
      if receipt == null || receipt.done {
        return;
      }
      Drop(receipt);
    }

    /** Receipts live at once on one database belong to one application and one
        composition. */
    lemma OneApplicationPerDatabase(a: Held, b: Held)
      requires Valid() && a in receipts && b in receipts && !a.done && !b.done && a.at == b.at
      ensures a.grip == b.grip && a.grip.app == b.grip.app && a.grip.composition == b.grip.composition
    {
    }

    /** Once every receipt came back nothing is held. */
    lemma NothingHeldAtTheEnd()
      requires Valid() && forall r :: r in receipts ==> r.done
      ensures Abstract() == map[]
    {
      forall k ensures k !in byKey {
        assert CountRight(k);
        assert Live(k) == {};
      }
    }
  }
}
