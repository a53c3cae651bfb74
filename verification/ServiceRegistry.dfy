// The service registry (service/base/registry/registry.go).
module ServiceRegistry {
  import opened Ordering
  import opened Text

  // The zero time, of services that were not checked.
  const NEVER := 0

  datatype Service = Service(
    name: string, language: string, endpoint: string,
    enabled: bool, healthKnown: bool, healthy: bool, lastError: string, lastChecked: nat, operations: set<string>)
  {
    // A service that lists no operations supports all of them.
    predicate Supports(operation: string) {
      Trim(operation) != "" && (operations == {} || operation in operations)
    }
  }

  function OperationSet(operations: seq<string>): set<string> {
    set op | op in NormalizedList(operations)
  }

  function NewService(name: string, language: string, endpoint: string, enabled: bool, operations: seq<string>): Service {
    Service(name, language, endpoint, enabled, false, enabled, "", NEVER, OperationSet(operations))
  }

  predicate ByName(a: Service, b: Service) { LexLe(a.name, b.name) }

  // Every service is stored under its own name.
  ghost predicate WellNamed(services: map<string, Service>) {
    forall n :: n in services ==> services[n].name == n
  }

  // The listed services: each exactly once, in name order.
  ghost predicate Lists(list: seq<Service>, services: map<string, Service>) {
    && InOrder(list, ByName)
    && (forall i, j :: 0 <= i < j < |list| ==> list[i].name != list[j].name)
    && (forall s :: s in list <==> s.name in services && services[s.name] == s)
  }

  // No refresh, enabling or disabling touches names or endpoints.
  ghost predicate SameAddresses(a: map<string, Service>, b: map<string, Service>) {
    a.Keys == b.Keys && forall n :: n in a ==> a[n].endpoint == b[n].endpoint
  }

  class Registry {
    var services: map<string, Service>

    ghost predicate Valid()
      reads this
    {
      WellNamed(services)
    }

    constructor ()
      ensures Valid() && services == map[]
    {
      services := map[];
    }

    method Register(service: Service)
      requires Valid()
      modifies this
      ensures Valid() && services == old(services)[service.name := service]
    {
      services := services[service.name := service];
    }

    method Remove(name: string) returns (removed: bool)
      requires Valid()
      modifies this
      ensures Valid() && services == old(services) - {name}
      ensures removed <==> name in old(services)
    {
      if name !in services {
        assert services - {name} == services;
        return false;
      }
      services := services - {name};
      return true;
    }

    method UpdateHealth(name: string, healthy: bool, lastError: string, checkedAt: nat) returns (known: bool)
      requires Valid()
      modifies this
      ensures Valid() && SameAddresses(services, old(services))
      ensures known <==> name in old(services)
      ensures services == if known then old(services)[name := old(services)[name].(
                            healthKnown := true, healthy := healthy, lastError := Trim(lastError), lastChecked := checkedAt)]
                          else old(services)
    {
      if name !in services {
        return false;
      }
      var service := services[name];
      service := service.(healthKnown := true, healthy := healthy, lastError := Trim(lastError), lastChecked := checkedAt);
      services := services[name := service];
      return true;
    }

    method UpdateCapabilities(name: string, operations: seq<string>) returns (known: bool)
      requires Valid()
      modifies this
      ensures Valid() && SameAddresses(services, old(services))
      ensures known <==> name in old(services)
      ensures services == if known then old(services)[name := old(services)[name].(
                            operations := OperationSet(operations))] else old(services)
    {
      if name !in services {
        return false;
      }
      var normalized := NormalizeStringList(operations);
      services := services[name := services[name].(operations := set op | op in normalized)];
      return true;
    }

    method SetEnabled(name: string, enabled: bool) returns (known: bool)
      requires Valid()
      modifies this
      ensures Valid() && SameAddresses(services, old(services))
      ensures known <==> name in old(services)
      ensures services == if known then old(services)[name := old(services)[name].(enabled := enabled)] else old(services)
    {
      if name !in services {
        return false;
      }
      services := services[name := services[name].(enabled := enabled)];
      return true;
    }

    method ResetHealth(name: string) returns (known: bool)
      requires Valid()
      modifies this
      ensures Valid() && SameAddresses(services, old(services))
      ensures known <==> name in old(services)
      ensures services == if known then old(services)[name := old(services)[name].(
                            healthKnown := false, healthy := old(services)[name].enabled, lastError := "",
                            lastChecked := NEVER)]
                          else old(services)
    {
      if name !in services {
        return false;
      }
      var service := services[name];
      services := services[name := service.(healthKnown := false, healthy := service.enabled, lastError := "",
                                            lastChecked := NEVER)];
      return true;
    }

    method List() returns (list: seq<Service>)
      requires Valid()
      ensures Lists(list, services)
    {
      var out: seq<Service> := [];
      var todo := services.Keys;
      while todo != {}
        invariant todo <= services.Keys
        invariant forall s :: s in out <==> s.name in services.Keys - todo && services[s.name] == s
        invariant NoDuplicates(out)
        decreases todo
      {
        var name :| name in todo;
        todo := todo - {name};
        out := out + [services[name]];
      }
      list := Sort(out, ByName);
      ByNameIsTotal();
      SortOrders(out, ByName);
      PermutationHasNoDuplicates(out, list);
      forall s ensures s in list <==> s in out {
        assert s in multiset(list) <==> s in multiset(out);
      }
      forall i, j | 0 <= i < j < |list| ensures list[i].name != list[j].name {
        assert list[i] in list && list[j] in list;
      }
    }
  }

  lemma ByNameIsTotal()
    ensures TotalPreorder(ByName)
  {
    forall a, b ensures ByName(a, b) || ByName(b, a) { LexTotal(a.name, b.name); }
    forall a, b, c | ByName(a, b) && ByName(b, c) ensures ByName(a, c) { LexTransitive(a.name, b.name, c.name); }
  }
}
