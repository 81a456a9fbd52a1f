/** `src/routes/mindustry-server/MindustryServerPage.tsx`: the list of game
    servers, sorted on every render so that named servers come first,
    servers removed by address, and the values shown for each server. */
module MindustryServers {
  import opened Common
  import Seqs

  datatype MindustryServer = MindustryServer(
    address: string, name: string, description: string, mapname: string,
    wave: int, players: int, playerLimit: int, version: int, versionType: string,
    mode: string, modeName: string, ping: int)

  /** `server.name` is truthy: present and not empty. */
  predicate IsNamed(server: MindustryServer)
  {
    |server.name| > 0
  }

  /** The comparator `(a, b) => (b.name ? 1 : 0) - (a.name ? 1 : 0)`. */
  function Compare(a: MindustryServer, b: MindustryServer): (order: int)
    ensures -1 <= order <= 1
    ensures order < 0 <==> IsNamed(a) && !IsNamed(b)
    ensures order > 0 <==> IsNamed(b) && !IsNamed(a)
  {
    (if IsNamed(b) then 1 else 0) - (if IsNamed(a) then 1 else 0)
  }

  /** What a stable sort by `Compare` yields: the named servers in their
      order, then the unnamed ones in theirs. */
  function NamedFirst(servers: seq<MindustryServer>): (sorted: seq<MindustryServer>)
  {
    Seqs.Filter(IsNamed, servers) + Seqs.Filter(Seqs.Not(IsNamed), servers)
  }

  /** The sorted list is a permutation of the list. */
  lemma NamedFirstIsPermutation(servers: seq<MindustryServer>)
    ensures multiset(NamedFirst(servers)) == multiset(servers)
    ensures |NamedFirst(servers)| == |servers|
  {
    Seqs.FilterPartition(IsNamed, servers);
    assert |multiset(NamedFirst(servers))| == |multiset(servers)|;
  }

  /** The sorted list is ordered by the comparator: every named server comes
      before every unnamed one. */
  lemma NamedFirstIsSorted(servers: seq<MindustryServer>)
    ensures forall i, j :: 0 <= i < j < |NamedFirst(servers)| ==>
              Compare(NamedFirst(servers)[i], NamedFirst(servers)[j]) <= 0
  {
    var named := Seqs.Filter(IsNamed, servers);
    var unnamed := Seqs.Filter(Seqs.Not(IsNamed), servers);
    var sorted := NamedFirst(servers);
    Seqs.FilterMembers(IsNamed, servers);
    Seqs.FilterMembers(Seqs.Not(IsNamed), servers);
    forall i, j | 0 <= i < j < |sorted|
      ensures Compare(sorted[i], sorted[j]) <= 0
    {
      if i < |named| {
        assert sorted[i] == named[i] && sorted[i] in named;
      } else {
        assert sorted[i] == unnamed[i - |named|] && sorted[i] in unnamed;
        assert sorted[j] == unnamed[j - |named|] && sorted[j] in unnamed;
        assert !IsNamed(sorted[i]) && !IsNamed(sorted[j]);
      }
    }
  }

  /** The sort is stable: the named servers keep their relative order, and
      so do the unnamed ones. */
  lemma NamedFirstIsStable(servers: seq<MindustryServer>)
    ensures Seqs.Filter(IsNamed, NamedFirst(servers)) == Seqs.Filter(IsNamed, servers)
    ensures Seqs.Filter(Seqs.Not(IsNamed), NamedFirst(servers)) == Seqs.Filter(Seqs.Not(IsNamed), servers)
  {
    var named := Seqs.Filter(IsNamed, servers);
    var unnamed := Seqs.Filter(Seqs.Not(IsNamed), servers);
    Seqs.FilterMembers(IsNamed, servers);
    Seqs.FilterMembers(Seqs.Not(IsNamed), servers);
    Seqs.FilterAppend(IsNamed, named, unnamed);
    Seqs.FilterAppend(Seqs.Not(IsNamed), named, unnamed);
    Seqs.FilterKeepsAll(IsNamed, named);
    Seqs.FilterDropsAll(IsNamed, unnamed);
    Seqs.FilterDropsAll(Seqs.Not(IsNamed), named);
    Seqs.FilterKeepsAll(Seqs.Not(IsNamed), unnamed);
  }

  /** Sorting again on the next render changes nothing. */
  lemma NamedFirstIdempotent(servers: seq<MindustryServer>)
    ensures NamedFirst(NamedFirst(servers)) == NamedFirst(servers)
  {
    NamedFirstIsStable(servers);
  }

  /** `filter((data) => data.address !== address)` */
  function WithoutAddress(servers: seq<MindustryServer>, address: string): (r: seq<MindustryServer>)
    ensures forall s :: s in r ==> s in servers && s.address != address
    ensures forall s :: s in servers && s.address != address ==> s in r
  {
    var keep := (s: MindustryServer) => s.address != address;
    Seqs.FilterMembers(keep, servers);
    Seqs.Filter(keep, servers)
  }

  /** Removing an address that is not listed changes nothing; removing it
      twice is removing it once. */
  lemma WithoutAddressStable(servers: seq<MindustryServer>, address: string)
    ensures (forall s :: s in servers ==> s.address != address) ==> WithoutAddress(servers, address) == servers
    ensures WithoutAddress(WithoutAddress(servers, address), address) == WithoutAddress(servers, address)
  {
    if forall s :: s in servers ==> s.address != address {
      Seqs.FilterKeepsAll((s: MindustryServer) => s.address != address, servers);
    }
    Seqs.FilterIdempotent((s: MindustryServer) => s.address != address, servers);
  }

  datatype VersionLabel = VersionType(text: string) | VersionNumber(number: int)

  /** What a row and a card show for a server. */
  datatype ServerDisplay = ServerDisplay(title: string, mode: string, playerLimit: Option<int>, version: VersionLabel)

  /** The card title is the name if it is truthy, else the address; the mode
      cell shows the map name when `modeName` is truthy, else the mode;
      `/playerLimit` appears only for a non-zero limit; the version shows
      `versionType` exactly when `version` is -1. */
  function Display(server: MindustryServer): (d: ServerDisplay)
    ensures d.title == if IsNamed(server) then server.name else server.address
    ensures |server.address| > 0 ==> |d.title| > 0
    ensures d.mode == (if |server.modeName| > 0 then server.mapname else server.mode)
    ensures d.playerLimit.Some? <==> server.playerLimit != 0
    ensures d.playerLimit.Some? ==> d.playerLimit.value == server.playerLimit
    ensures d.version.VersionType? <==> server.version == -1
    ensures d.version == VersionType(server.versionType) || d.version == VersionNumber(server.version)
  {
    ServerDisplay(
      if IsNamed(server) then server.name else server.address,
      if |server.modeName| > 0 then server.mapname else server.mode,
      if server.playerLimit != 0 then Some(server.playerLimit) else None,
      if server.version == -1 then VersionType(server.versionType) else VersionNumber(server.version))
  }

  /** The order a stable sort by `Compare` produces, computed in one pass:
      the named servers are collected, then the unnamed ones. */
  method OrderNamedFirst(servers: seq<MindustryServer>) returns (sorted: seq<MindustryServer>)
    ensures sorted == NamedFirst(servers)
  {
    var named: seq<MindustryServer> := [];
    var unnamed: seq<MindustryServer> := [];
    for i := 0 to |servers|
      invariant named == Seqs.Filter(IsNamed, servers[..i])
      invariant unnamed == Seqs.Filter(Seqs.Not(IsNamed), servers[..i])
    {
      assert servers[..i + 1] == servers[..i] + [servers[i]];
      Seqs.FilterAppend(IsNamed, servers[..i], [servers[i]]);
      Seqs.FilterAppend(Seqs.Not(IsNamed), servers[..i], [servers[i]]);
      assert Seqs.Not(IsNamed)(servers[i]) == !IsNamed(servers[i]);
      assert [servers[i]][1..] == [];
      if IsNamed(servers[i]) {
        named := named + [servers[i]];
      } else {
        unnamed := unnamed + [servers[i]];
      }
    }
    assert servers[..|servers|] == servers;
    sorted := named + unnamed;
  }

  /** The page's state: the loaded servers, an array sorted in place, and
      whether the add-server dialog is open. */
  class MindustryServerPage {
    var pages: array<MindustryServer>
    var dialogVisible: bool

    constructor (servers: seq<MindustryServer>)
      ensures pages[..] == servers && fresh(pages) && !dialogVisible
    {
      pages := new MindustryServer[|servers|](i requires 0 <= i < |servers| => servers[i]);
      dialogVisible := false;
    }

    /** `pages.sort(...)`: reorders the array in place into `NamedFirst` of
      its contents. The engine's sorting algorithm is not modelled, only its
      result, which ECMA-262 fixes because `sort` is stable. */
    method SortPages()
      modifies pages
      ensures pages[..] == NamedFirst(old(pages[..]))
    {
      var sorted := OrderNamedFirst(pages[..]);
      NamedFirstIsPermutation(old(pages[..]));
      for i := 0 to pages.Length
        invariant forall k :: 0 <= k < i ==> pages[k] == sorted[k]
      {
        pages[i] := sorted[i];
      }
    }

    /** `handleRemoveServer(address)`: closes the dialog, asks for the
      deletion and, whatever the outcome, replaces the list by the servers
      at other addresses, in order. */
    method HandleRemoveServer(address: string, deleteSucceeded: bool) returns (popup: Popup)
      modifies this
      ensures fresh(pages)
      ensures pages[..] == WithoutAddress(old(pages[..]), address)
      ensures !dialogVisible
      ensures popup == if deleteSucceeded then Popup("delete-server-success", Info) else Popup("delete-server-fail", Warning)
    {
      dialogVisible := false;
      if deleteSucceeded {
        popup := Popup("delete-server-success", Info);
      } else {
        popup := Popup("delete-server-fail", Warning);
      }
      var kept := WithoutAddress(pages[..], address);
      pages := new MindustryServer[|kept|](i requires 0 <= i < |kept| => kept[i]);
    }
  }
}
