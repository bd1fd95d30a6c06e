/**
 * internal/auth/tokens.go, and the identity half of cmd/vreflinkd/runtime.go: from the configured entries to the
 * account a worker process runs under.
 */
module Auth {
  import opened Wrappers
  import opened Protocol

  type Id = n: int | 0 <= n < 0x1_0000_0000

  datatype Identity = Identity(name: string, uid: Id, gid: Id, groups: seq<Id>)

  /** A table of the configuration; uid and gid may be missing. */
  datatype Entry = Entry(name: string, token: string, uid: Option<Id>, gid: Option<Id>, groups: seq<Id>)

  datatype TokenMap = TokenMap(identities: map<string, Identity>) {
    function Resolve(token: string): Option<Identity> {
      if token in identities then Some(identities[token]) else None
    }
  }

  // ---------------------------------------------------------------------------------------------
  // strings.TrimSpace
  // ---------------------------------------------------------------------------------------------

  /** `unicode.IsSpace`. */
  predicate IsSpace(c: char) {
    || '\t' <= c <= '\r' || c == ' ' || c == '\U{85}' || c == '\U{A0}' || c == '\U{1680}'
    || '\U{2000}' <= c <= '\U{200A}' || c in {'\U{2028}', '\U{2029}', '\U{202F}', '\U{205F}', '\U{3000}'}
  }

  /** The 25 characters of Unicode's White_Space property. */
  lemma SpacesListed(c: char)
    ensures IsSpace(c) <==>
              c as int in {0x9, 0xA, 0xB, 0xC, 0xD, 0x20, 0x85, 0xA0, 0x1680, 0x2000, 0x2001, 0x2002, 0x2003, 0x2004,
                           0x2005, 0x2006, 0x2007, 0x2008, 0x2009, 0x200A, 0x2028, 0x2029, 0x202F, 0x205F, 0x3000}
  {
  }

  function TrimSpace(s: string): string {
    if s == [] then s
    else if IsSpace(s[0]) then TrimSpace(s[1..])
    else if IsSpace(s[|s| - 1]) then TrimSpace(s[..|s| - 1])
    else s
  }

  /** What remains is the part of the text between its first and its last non-space. */
  lemma {:induction false} TrimSpaceMeaning(s: string) returns (before: string, after: string)
    ensures s == before + TrimSpace(s) + after
    ensures (forall c :: c in before ==> IsSpace(c)) && (forall c :: c in after ==> IsSpace(c))
    ensures TrimSpace(s) != [] ==> !IsSpace(TrimSpace(s)[0]) && !IsSpace(TrimSpace(s)[|TrimSpace(s)| - 1])
  {
    hide IsSpace;
    before, after := "", "";
    if s != [] && IsSpace(s[0]) {
      before, after := TrimSpaceMeaning(s[1..]);
      assert s == [s[0]] + s[1..];
      before := [s[0]] + before;
    } else if s != [] && IsSpace(s[|s| - 1]) {
      before, after := TrimSpaceMeaning(s[..|s| - 1]);
      assert s == s[..|s| - 1] + [s[|s| - 1]];
      after := after + [s[|s| - 1]];
    }
  }

  // ---------------------------------------------------------------------------------------------
  // Groups
  // ---------------------------------------------------------------------------------------------

  /** The groups other than the primary one, each where it first occurs. */
  function Normalized(groups: seq<Id>, primary: Id): seq<Id> {
    if groups == [] then []
    else
      var rest := Normalized(groups[..|groups| - 1], primary);
      var last := groups[|groups| - 1];
      if last == primary || last in rest then rest else rest + [last]
  }

  ghost predicate Distinct<T>(s: seq<T>) {
    forall i, j | 0 <= i < j < |s| :: s[i] != s[j]
  }

  /** `sub` picks some positions of `s`, in order. */
  ghost predicate PickedInOrder<T>(sub: seq<T>, s: seq<T>, at: seq<nat>) {
    && |at| == |sub|
    && (forall i, j | 0 <= i < j < |at| :: at[i] < at[j])
    && (forall i | 0 <= i < |at| :: at[i] < |s| && s[at[i]] == sub[i])
  }

  /** Exactly the groups other than the primary one, each once. */
  lemma {:induction false} NormalizedMembers(groups: seq<Id>, primary: Id)
    ensures Distinct(Normalized(groups, primary))
    ensures forall g :: g in Normalized(groups, primary) <==> g in groups && g != primary
    decreases |groups|
  {
    if groups != [] {
      var init, last := groups[..|groups| - 1], groups[|groups| - 1];
      NormalizedMembers(init, primary);
      assert groups == init + [last];
    }
  }

  /** An order-preserving removal of duplicates and of the primary group; each group stays at its first occurrence. */
  lemma {:induction false} NormalizedMeaning(groups: seq<Id>, primary: Id) returns (at: seq<nat>)
    ensures Distinct(Normalized(groups, primary))
    ensures forall g :: g in Normalized(groups, primary) <==> g in groups && g != primary
    ensures PickedInOrder(Normalized(groups, primary), groups, at)
    ensures forall i | 0 <= i < |at| :: Normalized(groups, primary)[i] !in groups[..at[i]]
    decreases |groups|
  {
    NormalizedMembers(groups, primary);
    at := [];
    if groups != [] {
      var init, last := groups[..|groups| - 1], groups[|groups| - 1];
      var before := NormalizedMeaning(init, primary);
      at := MorePicked(groups, primary, before);
    }
  }

  lemma MorePicked(groups: seq<Id>, primary: Id, before: seq<nat>) returns (at: seq<nat>)
    requires groups != []
    requires var init := groups[..|groups| - 1];
             && PickedInOrder(Normalized(init, primary), init, before)
             && (forall i | 0 <= i < |before| :: Normalized(init, primary)[i] !in init[..before[i]])
             && (forall g :: g in Normalized(init, primary) <==> g in init && g != primary)
    ensures PickedInOrder(Normalized(groups, primary), groups, at)
    ensures forall i | 0 <= i < |at| :: Normalized(groups, primary)[i] !in groups[..at[i]]
  {
    var init, last := groups[..|groups| - 1], groups[|groups| - 1];
    at := before;
    forall i | 0 <= i < |before|
        ensures groups[..before[i]] == init[..before[i]] && groups[before[i]] == init[before[i]] {
    }
    if last != primary && last !in Normalized(init, primary) {
      at := before + [|init|];
      assert groups[..|init|] == init;
    }
  }

  method NormalizeGroups(groups: seq<Id>, primary: Id) returns (normalized: seq<Id>)
    ensures normalized == Normalized(groups, primary)
  {
    normalized := [];
    var seen: set<Id> := {};
    for i := 0 to |groups|
      invariant normalized == Normalized(groups[..i], primary)
      invariant forall g :: g in seen <==> g in normalized
    {
      assert groups[..i + 1][..i] == groups[..i];
      var group := groups[i];
      if group == primary {
        continue;
      }
      if group in seen {
        continue;
      }
      seen := seen + {group};
      normalized := normalized + [group];
    }
    assert groups[..|groups|] == groups;
  }

  // ---------------------------------------------------------------------------------------------
  // The token map
  // ---------------------------------------------------------------------------------------------

  function IdentityOf(e: Entry): Identity
    requires e.uid.Some? && e.gid.Some?
  {
    Identity(TrimSpace(e.name), e.uid.value, e.gid.value, Normalized(e.groups, e.gid.value))
  }

  predicate Complete(e: Entry) {
    TrimSpace(e.token) != "" && e.uid.Some? && e.gid.Some?
  }

  /** What the configuration is called in messages. */
  function SourceName(source: string): string {
    if TrimSpace(source) == "" then "token map" else source
  }

  function ParseError(source: string, index: nat, what: string): Error {
    Leaf(Opaque, "parse " + source + ": tokens[" + Decimal(index) + "]." + what + " is required")
  }

  function DuplicateError(source: string, index: nat): Error {
    Leaf(Opaque, "parse " + source + ": duplicate token at tokens[" + Decimal(index) + "]")
  }

  /** What is wrong with an entry, given those before it. */
  function EntryError(source: string, entries: seq<Entry>, i: nat): Option<Error>
    requires i < |entries|
  {
    var e := entries[i];
    if TrimSpace(e.token) == "" then Some(ParseError(source, i, "token"))
    else if e.uid.None? then Some(ParseError(source, i, "uid"))
    else if e.gid.None? then Some(ParseError(source, i, "gid"))
    else if exists j | 0 <= j < i :: TrimSpace(entries[j].token) == TrimSpace(e.token) then
      Some(DuplicateError(source, i))
    else None
  }

  ghost predicate IsFirstError(source: string, entries: seq<Entry>, i: nat, e: Error) {
    && i < |entries| && EntryError(source, entries, i) == Some(e)
    && (forall j | 0 <= j < i :: EntryError(source, entries, j).None?)
  }

  /** An entry that is complete and whose token no earlier entry has. */
  ghost predicate EntryInOrder(entries: seq<Entry>, i: nat)
    requires i < |entries|
  {
    Complete(entries[i]) && forall j | 0 <= j < i :: TrimSpace(entries[j].token) != TrimSpace(entries[i].token)
  }

  /** The entries before `n` are. */
  ghost predicate InOrderUpTo(entries: seq<Entry>, n: nat)
    requires n <= |entries|
  {
    forall i | 0 <= i < n :: EntryInOrder(entries, i)
  }

  ghost predicate InOrder(entries: seq<Entry>) { InOrderUpTo(entries, |entries|) }

  lemma ErrorMeansDisorder(source: string, entries: seq<Entry>, i: nat)
    requires i < |entries|
    ensures EntryError(source, entries, i).None? <==> EntryInOrder(entries, i)
  {
  }

  /** An entry that is not in order is refused for what it lacks first, or else for its repeated token. */
  lemma DisorderSays(source: string, entries: seq<Entry>, i: nat)
    requires i < |entries| && !EntryInOrder(entries, i)
    ensures var said := Text(EntryError(source, entries, i).value);
            var lacks := (what: string) => "parse " + source + ": tokens[" + Decimal(i) + "]." + what + " is required";
            if TrimSpace(entries[i].token) == "" then said == lacks("token")
            else if entries[i].uid.None? then said == lacks("uid")
            else if entries[i].gid.None? then said == lacks("gid")
            else said == "parse " + source + ": duplicate token at tokens[" + Decimal(i) + "]"
  {
    ErrorMeansDisorder(source, entries, i);
  }

  lemma FirstError(source: string, entries: seq<Entry>, i: nat)
    requires i < |entries| && InOrderUpTo(entries, i) && EntryError(source, entries, i).Some?
    ensures IsFirstError(source, entries, i, EntryError(source, entries, i).value) && !InOrder(entries)
  {
    forall j | 0 <= j <= i ensures EntryError(source, entries, j).None? <==> EntryInOrder(entries, j) {
      ErrorMeansDisorder(source, entries, j);
    }
  }

  /** The plain search: the identity of the first entry with this token. */
  function Scan(entries: seq<Entry>, token: string): Option<Identity> {
    if entries == [] then None
    else if Complete(entries[0]) && TrimSpace(entries[0].token) == token then Some(IdentityOf(entries[0]))
    else Scan(entries[1..], token)
  }

  /** In an orderly configuration the search finds the one entry with the token, wherever it stands. */
  lemma {:induction false} ScanFindsTheEntry(entries: seq<Entry>, token: string)
    requires InOrder(entries)
    ensures forall i | 0 <= i < |entries| ::
              TrimSpace(entries[i].token) == token ==>
                Complete(entries[i]) && Scan(entries, token) == Some(IdentityOf(entries[i]))
    ensures (forall i | 0 <= i < |entries| :: TrimSpace(entries[i].token) != token) ==> Scan(entries, token).None?
  {
    if entries != [] {
      assert EntryInOrder(entries, 0);
      forall i | 0 <= i < |entries[1..]| ensures EntryInOrder(entries[1..], i) {
        assert EntryInOrder(entries, i + 1);
      }
      ScanFindsTheEntry(entries[1..], token);
      forall i | 1 <= i < |entries|
          ensures entries[i] == entries[1..][i - 1] && TrimSpace(entries[0].token) != TrimSpace(entries[i].token) {
        assert EntryInOrder(entries, i);
      }
    }
  }

  lemma {:induction false} ScanAppend(entries: seq<Entry>, e: Entry, token: string)
    requires Complete(e)
    ensures Scan(entries + [e], token)
         == if Scan(entries, token).Some? then Scan(entries, token)
            else if TrimSpace(e.token) == token then Some(IdentityOf(e)) else None
  {
    if entries == [] {
      assert [] + [e] == [e];
    } else {
      assert (entries + [e])[1..] == entries[1..] + [e];
      ScanAppend(entries[1..], e, token);
    }
  }

  /** Looking up and searching agree. */
  ghost predicate Indexes(identities: map<string, Identity>, entries: seq<Entry>) {
    forall token :: TokenMap(identities).Resolve(token) == Scan(entries, token)
  }

  /** A token is in the map under construction exactly when an earlier entry has it. */
  lemma KnownToken(entries: seq<Entry>, i: nat, identities: map<string, Identity>, token: string)
    requires i < |entries| && InOrderUpTo(entries, i) && Indexes(identities, entries[..i])
    ensures token in identities <==> exists j | 0 <= j < i :: TrimSpace(entries[j].token) == token
  {
    forall j | 0 <= j < i ensures EntryInOrder(entries[..i], j) {
      assert EntryInOrder(entries, j);
    }
    ScanFindsTheEntry(entries[..i], token);
    assert TokenMap(identities).Resolve(token) == Scan(entries[..i], token);
    assert forall j | 0 <= j < i :: entries[..i][j] == entries[j];
  }

  lemma OneMoreEntry(entries: seq<Entry>, i: nat, identities: map<string, Identity>, token: string)
    requires i < |entries| && InOrderUpTo(entries, i) && Indexes(identities, entries[..i])
    requires Complete(entries[i]) && token == TrimSpace(entries[i].token) && token !in identities
    ensures InOrderUpTo(entries, i + 1) && Indexes(identities[token := IdentityOf(entries[i])], entries[..i + 1])
  {
    KnownToken(entries, i, identities, token);
    assert entries[..i + 1] == entries[..i] + [entries[i]];
    var more := identities[token := IdentityOf(entries[i])];
    forall t: string ensures TokenMap(more).Resolve(t) == Scan(entries[..i + 1], t) {
      assert TokenMap(identities).Resolve(t) == Scan(entries[..i], t);
      ScanAppend(entries[..i], entries[i], t);
    }
  }

  /** The checks of one entry, in the order they are made. */
  lemma ChecksOfEntry(source: string, entries: seq<Entry>, i: nat, identities: map<string, Identity>)
    requires i < |entries| && InOrderUpTo(entries, i) && Indexes(identities, entries[..i])
    ensures EntryError(source, entries, i)
         == if TrimSpace(entries[i].token) == "" then Some(ParseError(source, i, "token"))
            else if entries[i].uid.None? then Some(ParseError(source, i, "uid"))
            else if entries[i].gid.None? then Some(ParseError(source, i, "gid"))
            else if TrimSpace(entries[i].token) in identities then Some(DuplicateError(source, i))
            else None
    ensures EntryError(source, entries, i).Some? ==>
              IsFirstError(source, entries, i, EntryError(source, entries, i).value) && !InOrder(entries)
  {
    KnownToken(entries, i, identities, TrimSpace(entries[i].token));
    if EntryError(source, entries, i).Some? {
      FirstError(source, entries, i);
    }
  }

  /**
   * Accepted exactly when the configuration is in order, and then a lookup is the plain search; refused with the error
   * of the first entry that has one. No entries means no token map at all.
   */
  method NewTokenMapFromEntries(source: string, entries: seq<Entry>) returns (r: Result<Option<TokenMap>, Error>)
    ensures r.Ok? <==> InOrder(entries)
    ensures r.Ok? ==> (r.value.None? <==> entries == [])
    ensures r.Ok? && r.value.Some? ==> Indexes(r.value.value.identities, entries)
    ensures r.Err? ==> exists i :: IsFirstError(SourceName(source), entries, i, r.error)
  {
    if |entries| == 0 {
      return Ok(None);
    }
    var name := SourceName(source);
    var identities: map<string, Identity> := map[];
    for i := 0 to |entries|
      invariant InOrderUpTo(entries, i) && Indexes(identities, entries[..i])
    {
      var entry := entries[i];
      ChecksOfEntry(name, entries, i, identities);
      var token := TrimSpace(entry.token);
      if token == "" {
        return Err(ParseError(name, i, "token"));
      }
      if entry.uid.None? {
        return Err(ParseError(name, i, "uid"));
      }
      if entry.gid.None? {
        return Err(ParseError(name, i, "gid"));
      }
      if token in identities {
        return Err(DuplicateError(name, i));
      }
      var groups := NormalizeGroups(entry.groups, entry.gid.value);
      OneMoreEntry(entries, i, identities, token);
      identities := identities[token := Identity(TrimSpace(entry.name), entry.uid.value, entry.gid.value, groups)];
    }
    assert entries[..|entries|] == entries;
    r := Ok(Some(TokenMap(identities)));
  }

  // ---------------------------------------------------------------------------------------------
  // The account a worker runs under
  // ---------------------------------------------------------------------------------------------

  /** What the kernel holds for a process: real and effective ids are the same, groups are as getgroups lists them. */
  datatype Account = Account(uid: Id, gid: Id, groups: seq<int>)

  /** `syscall.Credential`. */
  datatype Credential = Credential(uid: Id, gid: Id, groups: seq<Id>)

  /** `uint32(n)` of an int. */
  function Uint32(n: int): Id { n % 0x1_0000_0000 }

  /** Which groups a process has the rights of: its supplementary ones and its primary one. */
  ghost function GroupSet(primary: int, groups: seq<int>): set<int> {
    {primary} + set g | g in groups
  }

  method CurrentProcessIdentity(a: Account) returns (r: Identity)
    ensures r.uid == a.uid && r.gid == a.gid && r.gid !in r.groups
    ensures forall g :: g in r.groups <==> g != a.gid && exists raw :: raw in a.groups && raw >= 0 && Uint32(raw) == g
  {
    var normalized: seq<Id> := [];
    for i := 0 to |a.groups|
      invariant a.gid !in normalized
      invariant forall g :: g in normalized <==>
                  g != a.gid && exists j | 0 <= j < i :: a.groups[j] >= 0 && Uint32(a.groups[j]) == g
    {
      var group := a.groups[i];
      if group < 0 {
        continue;
      }
      var groupID := Uint32(group);
      if groupID == a.gid {
        continue;
      }
      normalized := normalized + [groupID];
    }
    r := Identity("", a.uid, a.gid, normalized);
  }

  // `slices.Sort`, as insertion from the right.

  predicate Sorted(s: seq<Id>) {
    forall i, j | 0 <= i < j < |s| :: s[i] <= s[j]
  }

  /** Where a number belongs in a sorted list. */
  function Position(x: Id, s: seq<Id>): (k: nat)
    requires Sorted(s)
    ensures k <= |s|
    ensures forall i | 0 <= i < k :: s[i] < x
    ensures forall i | k <= i < |s| :: x <= s[i]
  {
    if s == [] || x <= s[0] then 0
    else
      var k := Position(x, s[1..]);
      assert forall i | 1 <= i < |s| :: s[i] == s[1..][i - 1];
      k + 1
  }

  lemma Placed(x: Id, s: seq<Id>, k: nat)
    requires Sorted(s) && k <= |s|
    requires (forall i | 0 <= i < k :: s[i] < x) && (forall i | k <= i < |s| :: x <= s[i])
    ensures Sorted(s[..k] + [x] + s[k..])
  {
  }

  lemma PlacedOnce(x: Id, s: seq<Id>, k: nat)
    requires k <= |s|
    ensures multiset(s[..k] + [x] + s[k..]) == multiset(s) + multiset{x}
  {
    assert s == s[..k] + s[k..];
  }

  function Insert(x: Id, s: seq<Id>): (r: seq<Id>)
    requires Sorted(s)
    ensures Sorted(r) && multiset(r) == multiset(s) + multiset{x}
  {
    var k := Position(x, s);
    Placed(x, s, k);
    PlacedOnce(x, s, k);
    s[..k] + [x] + s[k..]
  }

  function Sort(s: seq<Id>): (r: seq<Id>)
    ensures Sorted(r) && multiset(r) == multiset(s)
  {
    if s == [] then []
    else
      assert s == [s[0]] + s[1..];
      Insert(s[0], Sort(s[1..]))
  }

  lemma MembersOfMultiset(s: seq<Id>)
    ensures forall x :: x in s <==> x in multiset(s)
  {
  }

  /** The least element comes first. */
  lemma SameHead(a: seq<Id>, b: seq<Id>)
    requires Sorted(a) && Sorted(b) && multiset(a) == multiset(b) && a != []
    ensures b != [] && a[0] == b[0]
  {
    MembersOfMultiset(a);
    MembersOfMultiset(b);
    assert a[0] in b;
    assert b[0] in a;
  }

  /** A multiset has one sorted listing. */
  lemma {:induction false} SortedIsUnique(a: seq<Id>, b: seq<Id>)
    requires Sorted(a) && Sorted(b) && multiset(a) == multiset(b)
    ensures a == b
  {
    if a == [] {
      assert |multiset(b)| == 0;
    } else {
      SameHead(a, b);
      assert a == [a[0]] + a[1..] && b == [b[0]] + b[1..];
      assert multiset(a[1..]) == multiset(a) - multiset{a[0]};
      assert multiset(b[1..]) == multiset(b) - multiset{b[0]};
      SortedIsUnique(a[1..], b[1..]);
    }
  }

  /** The two lists hold the same groups equally often. */
  method SameGroupSet(left: seq<Id>, right: seq<Id>) returns (same: bool)
    ensures same <==> multiset(left) == multiset(right)
  {
    if |left| != |right| {
      assert |multiset(left)| != |multiset(right)|;
      return false;
    }
    var leftCopy, rightCopy := Sort(left), Sort(right);
    if multiset(left) == multiset(right) {
      SortedIsUnique(leftCopy, rightCopy);
    }
    same := leftCopy == rightCopy;
  }

  /** The account of the child: the parent's, unless a credential is given. */
  function ChildAccount(parent: Account, credential: Option<Credential>): Account {
    match credential
    case None => parent
    case Some(c) => Account(c.uid, c.gid, c.groups)
  }

  /** The child acts for exactly this user, this group, and these groups. */
  ghost predicate ActsAs(a: Account, identity: Identity) {
    && a.uid == identity.uid && a.gid == identity.gid
    && GroupSet(a.gid, a.groups) == GroupSet(identity.gid, identity.groups)
  }

  method CredentialForIdentity(identity: Identity, current: Identity) returns (credential: Option<Credential>)
    ensures credential.None? <==>
              identity.uid == current.uid && identity.gid == current.gid
                  && multiset(identity.groups) == multiset(current.groups)
    ensures credential.Some? ==> credential.value == Credential(identity.uid, identity.gid, identity.groups)
  {
    if identity.uid == current.uid && identity.gid == current.gid {
      var same := SameGroupSet(identity.groups, current.groups);
      if same {
        return None;
      }
    }
    credential := Some(Credential(identity.uid, identity.gid, identity.groups));
  }

  /** Whichever way the child gets its account, it acts as the identity asked for. */
  method WorkerAccount(daemon: Account, identity: Identity) returns (child: Account)
    requires forall g :: g in daemon.groups ==> 0 <= g < 0x1_0000_0000
    ensures ActsAs(child, identity)
  {
    var current := CurrentProcessIdentity(daemon);
    var credential := CredentialForIdentity(identity, current);
    child := ChildAccount(daemon, credential);
    if credential.None? {
      SameElements(identity.groups, current.groups);
      assert forall g :: g in GroupSet(identity.gid, identity.groups) <==> g in GroupSet(daemon.gid, daemon.groups);
    }
  }

  lemma SameElements(a: seq<Id>, b: seq<Id>)
    requires multiset(a) == multiset(b)
    ensures forall g :: g in a <==> g in b
  {
    assert forall g :: g in a <==> g in multiset(a);
    assert forall g :: g in b <==> g in multiset(b);
  }

  /**
   * The identity a token stands for, in terms of its one entry: the worker's user, group and set of groups are those
   * written in the configuration, repeated groups and all.
   */
  lemma EntryDecidesAccount(entries: seq<Entry>, i: nat, a: Account)
    requires InOrder(entries) && i < |entries|
    ensures Complete(entries[i])
    ensures Scan(entries, TrimSpace(entries[i].token)) == Some(IdentityOf(entries[i]))
    ensures ActsAs(a, IdentityOf(entries[i])) <==>
              && a.uid == entries[i].uid.value && a.gid == entries[i].gid.value
              && GroupSet(a.gid, a.groups) == GroupSet(entries[i].gid.value, entries[i].groups)
  {
    ScanFindsTheEntry(entries, TrimSpace(entries[i].token));
    SameRights(entries[i].groups, entries[i].gid.value);
  }

  lemma SameRights(groups: seq<Id>, primary: Id)
    ensures GroupSet(primary, Normalized(groups, primary)) == GroupSet(primary, groups)
  {
    var at := NormalizedMeaning(groups, primary);
    var a, b := GroupSet(primary, Normalized(groups, primary)), GroupSet(primary, groups);
    assert forall g :: g in a <==> g in b;
  }
}
