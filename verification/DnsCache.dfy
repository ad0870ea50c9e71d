/** The DNS cache: lookups under a read/write lock with a second search before an entry is
    added, expiry, and reference counted properties, run by any number of threads in any
    interleaving (dnscache.c). */
module DnsCache {

  // ----- keys -----

  datatype Family = Inet | Inet6 | OtherFamily(code: nat)

  /** A socket address. Only family and address bytes take part in hashing and equality. */
  datatype Key = Key(family: Family, addr: seq<bv8>, port: nat)

  predicate IsInet(k: Key) { !k.family.OtherFamily? }

  predicate SameAddress(a: Key, b: Key) { a.family == b.family && a.addr == b.addr }

  /** key_equals_fn: false for every other family, also for a key and itself. */
  predicate KeyEquals(a: Key, b: Key) {
    if a.family != b.family then false
    else match a.family
      case Inet => a.addr == b.addr
      case Inet6 => a.addr == b.addr
      case OtherFamily(_) => false
  }

  function HashBytes(bytes: seq<bv8>): nat {
    if bytes == [] then 1 else (HashBytes(bytes[..|bytes| - 1]) * 33 + bytes[|bytes| - 1] as int) % 0x1_0000_0000
  }

  function Hash(k: Key): nat { HashBytes(if IsInet(k) then k.addr else []) }

  /** hash_from_key_fn. */
  method HashFromKey(k: Key) returns (hashval: nat)
    ensures hashval == Hash(k)
  {
    var rkey := if IsInet(k) then k.addr else [];
    hashval := 1;
    for i := 0 to |rkey|
      invariant hashval == HashBytes(rkey[..i])
    {
      assert rkey[..i + 1][..i] == rkey[..i];
      hashval := (hashval * 33 + rkey[i] as int) % 0x1_0000_0000;
    }
    assert rkey[..|rkey|] == rkey;
  }

  /** Keys that are equal hash alike, so a search through the bucket finds them; and a key is
      equal to keys of the same address exactly if it is an internet address. */
  lemma KeyEqualsMeans(a: Key, b: Key)
    ensures KeyEquals(a, b) <==> SameAddress(a, b) && IsInet(a)
    ensures KeyEquals(a, b) ==> Hash(a) == Hash(b)
  {
  }

  // ----- entries and references -----

  type PropId = nat

  /** The property handed out when a lookup fails. */
  const ERROR_PROP: PropId := 0

  datatype Field = Ip | Fqdn | FqdnLower | LocalName

  datatype Entry = Entry(key: Key, ip: PropId, fqdn: PropId, lower: PropId, local: PropId, validUntil: int)

  function Get(e: Entry, f: Field): PropId {
    match f
    case Ip => e.ip
    case Fqdn => e.fqdn
    case FqdnLower => e.lower
    case LocalName => e.local
  }

  /** One reference for each of the four fields. */
  function Refs(e: Entry): multiset<PropId> {
    multiset{e.ip} + multiset{e.fqdn} + multiset{e.lower} + multiset{e.local}
  }

  /** What the resolver may find: errors of the two name queries, a name that is a number,
      and the settings that matter. */
  datatype Resolution = Resolution(numericError: bool, disableDns: bool, nameError: bool, malicious: bool, dropMalicious: bool)

  datatype Resolved = Resolved(ok: bool, refs: multiset<PropId>, next: PropId, entry: Entry)

  predicate Fails(r: Resolution) { r.numericError || (!r.disableDns && !r.nameError && r.malicious && r.dropMalicious) }

  predicate Named(r: Resolution) { !r.numericError && !r.disableDns && !r.nameError && !r.malicious }

  /** resolveAddr with setLocalHostName: the properties it creates and the references it adds,
      in the order of the code. */
  function ResolveAddr(key: Key, r: Resolution, refs: multiset<PropId>, next: PropId, validUntil: int): (res: Resolved) {
    var named := Named(r);
    var refs1 := if named then refs + multiset{next} + multiset{next + 1} else refs;
    var next1 := if named then next + 2 else next;
    var ip := next1;
    var refs2 := refs1 + multiset{ip};
    var refs3 := if named then refs2 else refs2 + multiset{ip} + multiset{ip};
    var fqdn := if named then next else ip;
    var lower := if named then next + 1 else ip;
    // setLocalHostName takes the same property on each of its three paths
    Resolved(!Fails(r), refs3 + multiset{lower}, next1 + 1, Entry(key, ip, fqdn, lower, lower, validUntil))
  }

  /** On every resolve path each of the four fields owns exactly one reference, and all of
      them are to properties that did not exist before. */
  lemma ResolveOwnership(key: Key, r: Resolution, refs: multiset<PropId>, next: PropId, validUntil: int)
    ensures var res := ResolveAddr(key, r, refs, next, validUntil);
      && res.refs == refs + Refs(res.entry) && res.entry.key == key
      && next < res.next && forall f: Field :: next <= Get(res.entry, f) < res.next
  {
    var res := ResolveAddr(key, r, refs, next, validUntil);
    var e := res.entry;
    forall p ensures res.refs[p] == (refs + Refs(e))[p] {
    }
  }

  /** The properties in memory and their reference counts. */
  class PropStore {
    var refs: multiset<PropId>
    var next: PropId

    constructor ()
      ensures refs == multiset{} && next == 0
    {
      refs, next := multiset{}, 0;
    }

    method CreateStringProp() returns (p: PropId)
      modifies this
      ensures p == old(next) && next == p + 1 && refs == old(refs) + multiset{p} && p in refs
      ensures forall q :: q in old(refs) ==> q in refs
    {
      p := next;
      refs, next := refs + multiset{p}, p + 1;
    }

    /** A reference can only be added to a property that has one. */
    method AddRef(p: PropId)
      requires p in refs
      modifies this`refs
      ensures refs == old(refs) + multiset{p}
    {
      refs := refs + multiset{p};
    }

    /** setLocalHostName: with or without a domain part the full name is taken. */
    method SetLocalHostName(lower: PropId, preserveFqdn: bool, hasDomain: bool) returns (local: PropId)
      requires lower in refs
      modifies this`refs
      ensures local == lower && refs == old(refs) + multiset{lower}
    {
      if preserveFqdn {
        AddRef(lower);
        return lower;
      }
      if !hasDomain {
        AddRef(lower);
        return lower;
      }
      AddRef(lower);
      local := lower;
    }

    /** The name queries of resolveAddr; the two properties for the names exist only if all
        went well. */
    method ResolveNames(r: Resolution) returns (ok: bool, error: bool, fqdn: PropId, lower: PropId)
      modifies this
      ensures ok == !Fails(r)
      ensures if Named(r)
        then !error && !r.disableDns && fqdn == old(next) && lower == fqdn + 1 && next == fqdn + 2
             && refs == old(refs) + multiset{fqdn} + multiset{lower} && lower in refs
        else (error || r.disableDns) && next == old(next) && refs == old(refs)
    {
      error := r.numericError;
      fqdn, lower := ERROR_PROP, ERROR_PROP;
      ok := !error;
      if ok && !r.disableDns {
        error := r.nameError;
        if !error {
          if r.malicious {
            if r.dropMalicious { ok := false; }
            error := true;
          } else {
            fqdn := CreateStringProp();
            lower := CreateStringProp();
          }
        }
      }
      if !ok { error := true; }
    }

    /** resolveAddr, step by step. */
    method Resolve(key: Key, r: Resolution, validUntil: int, preserveFqdn: bool, hasDomain: bool)
      returns (ok: bool, e: Entry)
      modifies this
      ensures Resolved(ok, refs, next, e) == ResolveAddr(key, r, old(refs), old(next), validUntil)
    {
      hide Named, Fails;
      var error, fqdn, lower;
      ok, error, fqdn, lower := ResolveNames(r);
      var ip := CreateStringProp();
      if error || r.disableDns { fqdn, lower := ShareIp(ip); }
      var local := SetLocalHostName(lower, preserveFqdn, hasDomain);
      e := Entry(key, ip, fqdn, lower, local, validUntil);
    }

    /** Without a name the address stands for both forms of it. */
    method ShareIp(ip: PropId) returns (fqdn: PropId, lower: PropId)
      requires ip in refs
      modifies this`refs
      ensures fqdn == lower == ip && refs == old(refs) + multiset{ip} + multiset{ip} && ip in refs
    {
      AddRef(ip);
      fqdn := ip;
      AddRef(ip);
      lower := ip;
    }
  }

  datatype Cell = Live(e: Entry) | Freed

  /** References held by the entries in memory. */
  ghost function Owned(entries: seq<Cell>): multiset<PropId> {
    if entries == [] then multiset{}
    else Owned(entries[..|entries| - 1]) + if entries[|entries| - 1].Live? then Refs(entries[|entries| - 1].e) else multiset{}
  }

  lemma OwnedAppend(entries: seq<Cell>, e: Entry)
    ensures Owned(entries + [Live(e)]) == Owned(entries) + Refs(e)
  {
    assert (entries + [Live(e)])[..|entries|] == entries;
  }

  lemma {:induction false} OwnedFree(entries: seq<Cell>, i: nat)
    requires i < |entries| && entries[i].Live?
    ensures Owned(entries) == Owned(entries[i := Freed]) + Refs(entries[i].e)
  {
    var n := |entries| - 1;
    var freed := entries[i := Freed];
    if i == n {
      assert freed[..n] == entries[..n];
    } else {
      OwnedFree(entries[..n], i);
      assert freed[..n] == entries[..n][i := Freed];
    }
  }

  lemma {:induction false} OwnedHas(entries: seq<Cell>, i: nat, f: Field)
    requires i < |entries| && entries[i].Live?
    ensures Get(entries[i].e, f) in Owned(entries)
  {
    OwnedFree(entries, i);
    assert Get(entries[i].e, f) in Refs(entries[i].e);
  }
}
