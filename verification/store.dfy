/** The in-memory store: one managed counter for each key. */
module Stores {
  import opened CounterSpec
  import opened WorkerSpec
  import opened Vsa

  class ManagedVSA {
    const instance: VSA
    var lastAccessed: int
    var armed: bool

    ghost function Repr(): (r: set<object>)
      ensures this in r && instance in r
    {
      {this, instance, instance.stripes, instance.hGroupSum}
    }

    lemma Owns()
      ensures {instance, instance.stripes, instance.hGroupSum} <= Repr()
    {
    }

    ghost predicate Valid()
      reads Repr()
    {
      instance.Valid()
    }

    ghost function Value(): Managed
      reads Repr()
    {
      Managed(instance.Value(), lastAccessed, armed)
    }

    method Access(now: int)
      requires Valid()
      modifies this`lastAccessed
      ensures Valid() && Value() == old(Value()).(lastAccessed := now)
    {
      lastAccessed := now;
    }

    method Arm(b: bool)
      requires Valid()
      modifies this`armed
      ensures Valid() && Value() == old(Value()).(armed := b)
    {
      armed := b;
    }

    // A new key may commit as soon as it reaches the threshold.
    constructor (initialScalar: int, opts: Options, procs: int, now: int)
      ensures Valid() && fresh(Repr())
      ensures Value() == Managed(Counter(initialScalar, 0), now, true)
    {
      hide VSA.Valid;
      instance := new VSA(initialScalar, opts, procs);
      lastAccessed, armed := now, true;
    }
  }

  class Store {
    var counters: map<string, ManagedVSA>
    const initialScalar: int
    const vsaOptions: Options
    // The number of processors the counters are made for.
    const procs: int

    ghost var Repr: set<object>

    ghost predicate Valid()
      reads this, Repr
      ensures Valid() ==> this in Repr && forall k :: k in counters ==> counters[k].Repr() <= Repr && counters[k].Valid()
    {
      && this in Repr
      && (forall k :: k in counters ==>
            counters[k].Repr() <= Repr && this !in counters[k].Repr() && counters[k].Valid())
      && (forall k, l :: k in counters && l in counters && k != l ==> counters[k].Repr() !! counters[l].Repr())
    }

    ghost function View(): (v: map<string, Managed>)
      requires Valid()
      reads this, Repr
      ensures v.Keys == counters.Keys && forall k :: k in v ==> v[k] == counters[k].Value()
    {
      map k | k in counters :: counters[k].Value()
    }

    constructor (initialScalar: int, opts: Options, procs: int)
      ensures Valid() && fresh(Repr) && View() == map[] && this.initialScalar == initialScalar
    {
      counters := map[];
      this.initialScalar, this.procs, vsaOptions := initialScalar, procs, opts;
      Repr := {this};
    }

    // Work on the instance of one key leaves every other key as it was.
    twostate lemma OthersKept(key: string)
      requires old(Valid()) && unchanged(this) && key in counters
      requires forall o :: o in Repr && o !in counters[key].Repr() ==> unchanged(o)
      requires counters[key].Valid()
      ensures Valid() && View() == old(View())[key := counters[key].Value()]
    {
      hide ManagedVSA.Repr, ManagedVSA.Value, ManagedVSA.Valid;
      forall k | k in counters && k != key
        ensures counters[k].Value() == old(counters[k].Value()) && counters[k].Valid()
      {
        assert counters[k].Repr() !! counters[key].Repr();
      }
      assert View() == old(View())[key := counters[key].Value()];
    }

    method Touch(key: string, now: int) returns (instance: VSA)
      requires Valid() && key in counters
      modifies Repr
      ensures Valid() && Repr == old(Repr) && counters == old(counters)
      ensures instance == counters[key].instance
      ensures View() == old(View())[key := old(View())[key].(lastAccessed := now)]
    {
      hide ManagedVSA.Repr, ManagedVSA.Value, ManagedVSA.Valid, Valid, View;
      var managed := counters[key];
      managed.Access(now);
      OthersKept(key);
      instance := managed.instance;
    }

    // One more object that shares nothing with those already there.
    lemma Joined(key: string, managed: ManagedVSA, others: map<string, ManagedVSA>, repr: set<object>)
      requires counters == others[key := managed] && Repr == repr + managed.Repr()
      requires this in repr && managed.Repr() !! repr
      requires forall k :: k in others ==> others[k].Repr() <= repr && this !in others[k].Repr()
      requires forall k, l :: k in others && l in others && k != l ==> others[k].Repr() !! others[l].Repr()
      requires key !in others && forall k :: k in counters ==> counters[k].Valid()
      ensures Valid()
    {
      hide ManagedVSA.Valid, ManagedVSA.Repr;
      forall k | k in others ensures others[k].Repr() !! managed.Repr() {
      }
    }

    method Add(key: string, managed: ManagedVSA)
      requires Valid() && managed.Valid() && managed.Repr() !! Repr && key !in counters
      modifies this
      ensures Valid() && Repr == old(Repr) + managed.Repr()
      ensures View() == old(View()[key := managed.Value()])
      ensures counters == old(counters)[key := managed]
    {
      hide ManagedVSA.Valid, ManagedVSA.Value, ManagedVSA.Repr;
      ghost var before, added := View(), managed.Value();
      counters := counters[key := managed];
      Repr := Repr + managed.Repr();
      assert forall k :: k in counters && k != key ==> counters[k].Value() == before[k] && counters[k].Valid();
      assert managed.Value() == added && managed.Valid();
      Joined(key, managed, old(counters), old(Repr));
      assert View() == before[key := added];
    }

    // The key was missing: a fresh instance is stored for it.
    method Publish(key: string, now: int) returns (instance: VSA)
      requires Valid() && key !in counters
      modifies this
      ensures Valid() && fresh(Repr - old(Repr))
      ensures key in counters && instance == counters[key].instance
      ensures View() == old(View())[key := Managed(Counter(initialScalar, 0), now, true)]
    {
      hide ManagedVSA.Valid, ManagedVSA.Value, ManagedVSA.Repr;
      ghost var before := View();
      var managed := new ManagedVSA(initialScalar, vsaOptions, procs, now);
      instance := managed.instance;
      assert Repr !! managed.Repr();
      assert View() == before;
      Add(key, managed);
    }

    /** The instance of the key, which is created on first use; either way its access time is now. */
    method GetOrCreate(key: string, now: int) returns (instance: VSA)
      requires Valid()
      modifies Repr
      ensures Valid() && fresh(Repr - old(Repr))
      ensures key in counters && instance == counters[key].instance
      ensures old(key in counters) ==> Repr == old(Repr) && counters == old(counters)
      ensures View() == old(View())[key :=
        if old(key in counters) then old(View())[key].(lastAccessed := now)
        else Managed(Counter(initialScalar, 0), now, true)]
    {
      if key in counters {
        instance := Touch(key, now);
      } else {
        instance := Publish(key, now);
      }
    }

    method Delete(key: string)
      requires Valid()
      modifies this
      ensures Valid() && Repr == old(Repr)
      ensures View() == old(View()) - {key}
      ensures counters == old(counters) - {key}
    {
      hide ManagedVSA.Valid, ManagedVSA.Value, ManagedVSA.Repr;
      ghost var before := View();
      counters := counters - {key};
      assert View() == before - {key};
    }
  }
}
