/**
 * Notification identity, deduplication and ordering. `Date.parse` and locale comparison are parameters;
 * an unreadable date is NaN.
 */
module Notifications {

  import opened Sequences
  import opened Joins
  import opened Locale
  import Fnv1a
  import Sorting

  datatype Host = Host(parse: string -> Option<int>, compare: (string, string) -> int)

  datatype Scope = Wallet | Vault | Global

  datatype Type =
    | ApyChange | PendingTransaction | VaultPause | RewardEvent | ProtocolAlert
    | Deposit | Withdrawal | RoundUpdate | AccountType

  datatype Input = Input(
    kind: Type, scope: Scope, subject: Option<string>, title: string, message: string,
    date: Option<string>, expiresAt: Option<string>)

  datatype Notification = Notification(
    kind: Type, scope: Scope, subject: Option<string>, id: string, identityKey: string,
    title: string, message: string, date: string, read: bool, dismissed: bool, version: nat,
    expiresAt: Option<string>)

  // ----- Identity -----------------------------------------------------------------------------

  function ScopeName(s: Scope): string {
    match s
    case Wallet => "wallet"
    case Vault => "vault"
    case Global => "global"
  }

  function TypeName(t: Type): string {
    match t
    case ApyChange => "apy_change"
    case PendingTransaction => "pending_transaction"
    case VaultPause => "vault_pause"
    case RewardEvent => "reward_event"
    case ProtocolAlert => "protocol_alert"
    case Deposit => "deposit"
    case Withdrawal => "withdrawal"
    case RoundUpdate => "round_update"
    case AccountType => "account"
  }

  /** `subject || "global"`. */
  function SubjectOr(subject: Option<string>): string {
    if subject.Some? && subject.value != "" then subject.value else "global"
  }

  /** `computeIdentityKey(input)`. */
  function IdentityKey(kind: Type, scope: Scope, subject: Option<string>): string {
    TypeName(kind) + ":" + (":" + (ScopeName(scope) + ":" + (":" + SubjectOr(subject))))
  }

  function IdOf(identityKey: string): string {
    "notif-" + Fnv1a.ShortHash(identityKey)
  }

  /** `[title, message, date].join("|")`. */
  function ContentText(title: string, message: string, date: string): string {
    title + "|" + (message + "|" + date)
  }

  /** `contentSignature(n)`. */
  function Signature(n: Notification): string {
    ContentText(n.title, n.message, n.date)
  }

  /** `createNotification(input)`; `clock` is read when the input has no date. */
  function Create(input: Input, clock: string): Notification {
    var key := IdentityKey(input.kind, input.scope, input.subject);
    Notification(input.kind, input.scope, input.subject, IdOf(key), key, input.title, input.message,
                 input.date.GetOr(clock), false, false, 1, input.expiresAt)
  }

  // ----- Operations on the list ------------------------------------------------------------------

  /** The position of the first notification with this key, or the length of the list. */
  function IndexOfKey(ns: seq<Notification>, key: string): (i: nat)
    ensures i <= |ns|
    ensures i < |ns| ==> ns[i].identityKey == key
    ensures forall k | 0 <= k < i :: ns[k].identityKey != key
  {
    if ns == [] || ns[0].identityKey == key then 0 else 1 + IndexOfKey(ns[1..], key)
  }

  datatype UpsertOutcome = Created | Updated | Duplicate

  /** What replaces `current` when `incoming` brings new content. */
  function Refreshed(current: Notification, incoming: Notification): Notification {
    incoming.(id := current.id, identityKey := current.identityKey, read := false,
              dismissed := current.dismissed, version := current.version + 1)
  }

  /** `upsertNotification(existing, incoming)`. */
  function Upsert(existing: seq<Notification>, incoming: Notification): (seq<Notification>, UpsertOutcome) {
    var index := IndexOfKey(existing, incoming.identityKey);
    if index == |existing| then ([incoming] + existing, Created)
    else
      var current := existing[index];
      if Signature(current) == Signature(incoming) then (existing, Duplicate)
      else (existing[index := Refreshed(current, incoming)], Updated)
  }

  function MarkRead(ns: seq<Notification>, id: string): seq<Notification> {
    Map((n: Notification) => if n.id == id && !n.read then n.(read := true) else n, ns)
  }

  function MarkAllRead(ns: seq<Notification>): seq<Notification> {
    Map((n: Notification) => if n.read then n else n.(read := true), ns)
  }

  function Dismiss(ns: seq<Notification>, id: string): seq<Notification> {
    Map((n: Notification) => if n.id == id && !n.dismissed then n.(dismissed := true) else n, ns)
  }

  function DismissAll(ns: seq<Notification>, scope: Option<Scope>): seq<Notification> {
    Map((n: Notification) =>
          if n.dismissed then n
          else if scope.Some? && n.scope != scope.value then n
          else n.(dismissed := true), ns)
  }

  /** A comparison with NaN is false, so an unreadable expiry or clock removes the notification. */
  predicate Unexpired(host: Host, n: Notification, now: string) {
    n.expiresAt.None? ||
    (var e, c := host.parse(n.expiresAt.value), host.parse(now);
     e.Some? && c.Some? && e.value > c.value)
  }

  function Prune(host: Host, ns: seq<Notification>, now: string): seq<Notification> {
    if ns == [] then []
    else if Unexpired(host, ns[0], now) then [ns[0]] + Prune(host, ns[1..], now)
    else Prune(host, ns[1..], now)
  }

  /** Newest first, then by key; a difference of dates that is NaN counts as a tie. */
  predicate ListedBefore(host: Host, a: Notification, b: Notification) {
    var ta, tb := host.parse(a.date), host.parse(b.date);
    if ta.Some? && tb.Some? then
      if tb.value - ta.value != 0 then tb.value - ta.value <= 0
      else host.compare(a.identityKey, b.identityKey) <= 0
    else true
  }

  function ListOrder(host: Host): (Notification, Notification) -> bool {
    (a: Notification, b: Notification) => ListedBefore(host, a, b)
  }

  function SortAll(host: Host, ns: seq<Notification>): seq<Notification> {
    Sorting.Sort(ListOrder(host), ns)
  }

  function CountUnread(ns: seq<Notification>): nat {
    if ns == [] then 0 else (if !ns[0].read && !ns[0].dismissed then 1 else 0) + CountUnread(ns[1..])
  }

  // ----- Identity is exact -------------------------------------------------------------------------

  lemma NamesFree(kind: Type, scope: Scope)
    ensures Free(TypeName(kind), ':') && Free(ScopeName(scope), ':')
  {
  }

  lemma TypeNameInjective(a: Type, b: Type)
    requires TypeName(a) == TypeName(b)
    ensures a == b
  {
    var m, n := TypeName(a), TypeName(b);
    assert |m| == |n| && m[0] == n[0] && m[1] == n[1];
  }

  lemma ScopeNameInjective(a: Scope, b: Scope)
    requires ScopeName(a) == ScopeName(b)
    ensures a == b
  {
    assert ScopeName(a)[0] == ScopeName(b)[0];
  }

  /**
   * Two alerts share an identity exactly when type, scope and subject agree; a wallet alert never meets a
   * global one.
   */
  lemma IdentityKeyExact(k: Type, s: Scope, u: Option<string>, k': Type, s': Scope, u': Option<string>)
    ensures IdentityKey(k, s, u) == IdentityKey(k', s', u') <==> k == k' && s == s' && SubjectOr(u) == SubjectOr(u')
  {
    if IdentityKey(k, s, u) == IdentityKey(k', s', u') {
      var c, c' := ":" + SubjectOr(u), ":" + SubjectOr(u');
      var b, b' := ScopeName(s) + ":" + c, ScopeName(s') + ":" + c';
      NamesFree(k, s);
      NamesFree(k', s');
      JoinSplits(TypeName(k), ":" + b, TypeName(k'), ":" + b', ':');
      TypeNameInjective(k, k');
      assert b == (":" + b)[1..] == (":" + b')[1..] == b';
      JoinSplits(ScopeName(s), c, ScopeName(s'), c', ':');
      ScopeNameInjective(s, s');
      assert SubjectOr(u) == c[1..] == c'[1..] == SubjectOr(u');
    }
  }

  /** Without bars in titles and messages, equal signatures mean equal content. */
  lemma SignatureFaithful(a: Notification, b: Notification)
    requires Free(a.title, '|') && Free(a.message, '|') && Free(b.title, '|') && Free(b.message, '|')
    ensures Signature(a) == Signature(b) <==> a.title == b.title && a.message == b.message && a.date == b.date
  {
    if Signature(a) == Signature(b) {
      JoinSplits(a.title, a.message + "|" + a.date, b.title, b.message + "|" + b.date, '|');
      JoinSplits(a.message, a.date, b.message, b.date, '|');
    }
  }

  // ----- When an update passes for a duplicate ------------------------------------------------------

  lemma BarsOf(title: string, message: string, date: string)
    ensures Seps(ContentText(title, message, date), '|') == Seps(title, '|') + Seps(message, '|') + Seps(date, '|') + 2
  {
    SepsJoin(message, date, '|');
    SepsJoin(title, message + "|" + date, '|');
  }

  /** Content without bars is determined by its signature, whatever it is compared with. */
  lemma BarFreeDetermines(title: string, message: string, date: string, t: string, m: string, d: string)
    requires Free(title, '|') && Free(message, '|') && Free(date, '|')
    requires ContentText(t, m, d) == ContentText(title, message, date)
    ensures t == title && m == message && d == date
  {
    FreeHasNone(title, '|');
    FreeHasNone(message, '|');
    FreeHasNone(date, '|');
    BarsOf(title, message, date);
    BarsOf(t, m, d);
    FreeHasNone(t, '|');
    FreeHasNone(m, '|');
    JoinSplits(t, m + "|" + d, title, message + "|" + date, '|');
    JoinSplits(m, d, message, date, '|');
  }

  /** A bar in any of the three fields can be read as the separator instead. */
  lemma OtherContent(title: string, message: string, date: string) returns (t: string, m: string, d: string)
    requires !Free(title, '|') || !Free(message, '|') || !Free(date, '|')
    ensures ContentText(t, m, d) == ContentText(title, message, date)
    ensures t != title || m != message || d != date
  {
    if !Free(title, '|') {
      var a, b := CutAnywhere(title, '|');
      t, m, d := a, b, message + "|" + date;
      assert |t| < |title|;
      assert (a + "|" + b) + "|" + (message + "|" + date) == a + "|" + (b + "|" + (message + "|" + date));
    } else if !Free(message, '|') {
      var a, b := CutAnywhere(message, '|');
      t, m, d := title + "|" + a, b, date;
      assert |t| > |title|;
      assert title + "|" + ((a + "|" + b) + "|" + date) == (title + "|" + a) + "|" + (b + "|" + date);
    } else {
      var a, b := CutAnywhere(date, '|');
      t, m, d := title, message + "|" + a, b;
      assert |m| > |message|;
      assert title + "|" + (message + "|" + (a + "|" + b)) == title + "|" + ((message + "|" + a) + "|" + b);
    }
  }

  predicate BarFree(n: Notification) {
    Free(n.title, '|') && Free(n.message, '|') && Free(n.date, '|')
  }

  predicate SameContent(a: Notification, b: Notification) {
    a.title == b.title && a.message == b.message && a.date == b.date
  }

  /** Exactly the contents without a bar in any field are told apart from every other content. */
  lemma {:induction false} SignatureExact(title: string, message: string, date: string)
    ensures (forall t, m, d | ContentText(t, m, d) == ContentText(title, message, date) ::
               t == title && m == message && d == date)
       <==> Free(title, '|') && Free(message, '|') && Free(date, '|')
  {
    if Free(title, '|') && Free(message, '|') && Free(date, '|') {
      forall t, m, d | ContentText(t, m, d) == ContentText(title, message, date)
        ensures t == title && m == message && d == date
      {
        BarFreeDetermines(title, message, date, t, m, d);
      }
    } else {
      var t, m, d := OtherContent(title, message, date);
    }
  }

  /** The alert changes the content of the listed one, and is dropped as its duplicate. */
  predicate TakenForDuplicate(ns: seq<Notification>, n: Notification) {
    var index := IndexOfKey(ns, n.identityKey);
    index < |ns| && Upsert(ns, n).1 == Duplicate && !SameContent(ns[index], n)
  }

  /** An alert can be taken for a duplicate by some list exactly when one of its three fields contains a bar. */
  lemma {:induction false} UpdateLostExactly(n: Notification)
    requires Genuine(n)
    ensures (exists ns: seq<Notification> :: Inv(ns) && TakenForDuplicate(ns, n)) <==> !BarFree(n)
  {
    if ns: seq<Notification> :| Inv(ns) && TakenForDuplicate(ns, n) {
      var current := ns[IndexOfKey(ns, n.identityKey)];
      if BarFree(n) {
        BarFreeDetermines(n.title, n.message, n.date, current.title, current.message, current.date);
      }
    }
    if !BarFree(n) {
      var t, m, d := OtherContent(n.title, n.message, n.date);
      var ns := [n.(title := t, message := m, date := d)];
      assert IndexOfKey(ns, n.identityKey) == 0;
      assert Inv(ns) && TakenForDuplicate(ns, n);
    }
  }

  /** In any list: an alert without bars is a duplicate exactly if its content is the listed one. */
  lemma {:induction false} DuplicateExactly(ns: seq<Notification>, n: Notification)
    requires BarFree(n)
    ensures Upsert(ns, n).1 == Duplicate <==>
            var index := IndexOfKey(ns, n.identityKey); index < |ns| && SameContent(ns[index], n)
  {
    var index := IndexOfKey(ns, n.identityKey);
    if index < |ns| && Signature(ns[index]) == Signature(n) {
      BarFreeDetermines(n.title, n.message, n.date, ns[index].title, ns[index].message, ns[index].date);
    }
  }

  // ----- The list invariant -----------------------------------------------------------------------

  predicate UniqueIdentities(ns: seq<Notification>) {
    forall i, j | 0 <= i < j < |ns| :: ns[i].identityKey != ns[j].identityKey
  }

  predicate Genuine(n: Notification) {
    n.id == IdOf(n.identityKey) && n.version >= 1
  }

  /** One current notification per identity, each under the id of its identity. */
  predicate Inv(ns: seq<Notification>) {
    UniqueIdentities(ns) && forall i | 0 <= i < |ns| :: Genuine(ns[i])
  }

  datatype Op =
    | Alert(input: Input, clock: string)
    | Read(id: string)
    | ReadAll
    | Hide(id: string)
    | HideAll(scope: Option<Scope>)
    | Expire(now: string)
    | Sort

  function Apply(host: Host, ns: seq<Notification>, op: Op): seq<Notification> {
    match op
    case Alert(input, clock) => Upsert(ns, Create(input, clock)).0
    case Read(id) => MarkRead(ns, id)
    case ReadAll => MarkAllRead(ns)
    case Hide(id) => Dismiss(ns, id)
    case HideAll(scope) => DismissAll(ns, scope)
    case Expire(now) => Prune(host, ns, now)
    case Sort => SortAll(host, ns)
  }

  function Run(host: Host, ns: seq<Notification>, ops: seq<Op>): seq<Notification>
    decreases ops
  {
    if ops == [] then ns else Run(host, Apply(host, ns, ops[0]), ops[1..])
  }

  lemma UpsertKeepsInv(ns: seq<Notification>, n: Notification)
    requires Inv(ns) && Genuine(n)
    ensures Inv(Upsert(ns, n).0)
  {
    var index := IndexOfKey(ns, n.identityKey);
    if index == |ns| {
      ConsKeepsInv(n, ns);
    } else if Upsert(ns, n).1 == Updated {
      ReplaceKeepsInv(ns, index, Refreshed(ns[index], n));
    }
  }

  lemma ReplaceKeepsInv(ns: seq<Notification>, i: nat, n: Notification)
    requires Inv(ns) && i < |ns| && Genuine(n) && n.identityKey == ns[i].identityKey
    ensures Inv(ns[i := n])
  {
    var after := ns[i := n];
    assert forall k | 0 <= k < |ns| :: after[k].identityKey == ns[k].identityKey;
    assert forall k | 0 <= k < |ns| :: Genuine(ns[k]) && Genuine(after[k]);
  }

  lemma {:induction false} PruneSelects(host: Host, ns: seq<Notification>, now: string)
    ensures forall n :: n in Prune(host, ns, now) <==> n in ns && Unexpired(host, n, now)
    ensures Inv(ns) ==> Inv(Prune(host, ns, now))
  {
    if ns != [] {
      PruneSelects(host, ns[1..], now);
      if Inv(ns) {
        assert Inv(ns[1..]);
        assert Genuine(ns[0]);
        ConsKeepsInv(ns[0], Prune(host, ns[1..], now));
      }
    }
  }

  lemma ConsKeepsInv(n: Notification, tail: seq<Notification>)
    requires Inv(tail) && Genuine(n)
    ensures (forall x | x in tail :: x.identityKey != n.identityKey) ==> Inv([n] + tail)
  {
    var all := [n] + tail;
    assert forall i | 0 < i < |all| :: all[i] == tail[i - 1] && all[i] in tail;
  }

  /** Identity, id and version of every entry are as before. */
  predicate SameEntries(a: seq<Notification>, b: seq<Notification>) {
    && |a| == |b|
    && forall k | 0 <= k < |a| :: SameEntry(a[k], b[k])
  }

  predicate SameEntry(a: Notification, b: Notification) {
    a.identityKey == b.identityKey && a.id == b.id && a.version == b.version && (a.dismissed ==> b.dismissed)
  }

  lemma FlagsKeepEntries(ns: seq<Notification>, id: string, scope: Option<Scope>)
    ensures SameEntries(ns, MarkRead(ns, id)) && SameEntries(ns, MarkAllRead(ns))
    ensures SameEntries(ns, Dismiss(ns, id)) && SameEntries(ns, DismissAll(ns, scope))
  {
  }

  lemma SameEntriesKeepInv(a: seq<Notification>, b: seq<Notification>)
    requires Inv(a) && SameEntries(a, b)
    ensures Inv(b)
  {
    forall i | 0 <= i < |b| ensures Genuine(b[i]) {
      assert Genuine(a[i]) && SameEntry(a[i], b[i]);
    }
    forall i, j | 0 <= i < j < |b| ensures b[i].identityKey != b[j].identityKey {
      assert SameEntry(a[i], b[i]) && SameEntry(a[j], b[j]);
    }
  }

  lemma PermutationKeepsInv(a: seq<Notification>, b: seq<Notification>)
    requires Inv(a) && multiset(a) == multiset(b)
    ensures Inv(b)
  {
    DistinctPermutation(a, b);
    forall i | 0 <= i < |b| ensures b[i] in a {
      assert b[i] in multiset(b);
    }
  }

  lemma SortKeepsInv(host: Host, ns: seq<Notification>)
    requires Inv(ns)
    ensures Inv(SortAll(host, ns))
  {
    Sorting.SortPermutes(ListOrder(host), ns);
    PermutationKeepsInv(ns, SortAll(host, ns));
  }

  lemma StepKeepsInv(host: Host, ns: seq<Notification>, op: Op)
    requires Inv(ns)
    ensures Inv(Apply(host, ns, op))
  {
    match op
    case Alert(input, clock) => UpsertKeepsInv(ns, Create(input, clock));
    case Expire(now) => PruneSelects(host, ns, now);
    case Sort => SortKeepsInv(host, ns);
    case Read(id) => FlagsKeepInv(ns, id, None);
    case ReadAll => FlagsKeepInv(ns, "", None);
    case Hide(id) => FlagsKeepInv(ns, id, None);
    case HideAll(scope) => FlagsKeepInv(ns, "", scope);
  }

  lemma {:induction false} FlagsKeepInv(ns: seq<Notification>, id: string, scope: Option<Scope>)
    requires Inv(ns)
    ensures Inv(MarkRead(ns, id))
    ensures Inv(MarkAllRead(ns))
    ensures Inv(Dismiss(ns, id))
    ensures Inv(DismissAll(ns, scope))
  {
    FlagsKeepEntries(ns, id, scope);
    SameEntriesKeepInv(ns, MarkRead(ns, id));
    SameEntriesKeepInv(ns, MarkAllRead(ns));
    SameEntriesKeepInv(ns, Dismiss(ns, id));
    SameEntriesKeepInv(ns, DismissAll(ns, scope));
  }

  /** Over any run from a list that satisfies it, and so from the empty list, the invariant holds. */
  lemma {:induction false} RunKeepsInv(host: Host, ns: seq<Notification>, ops: seq<Op>)
    requires Inv(ns)
    ensures Inv(Run(host, ns, ops))
    decreases ops
  {
    if ops != [] {
      StepKeepsInv(host, ns, ops[0]);
      RunKeepsInv(host, Apply(host, ns, ops[0]), ops[1..]);
    }
  }

  // ----- Upserting ---------------------------------------------------------------------------------

  /** Upserting the same alert twice is the same as upserting it once. */
  lemma UpsertIdempotent(ns: seq<Notification>, n: Notification)
    ensures var once := Upsert(ns, n).0; Upsert(once, n) == (once, Duplicate)
  {
    var index := IndexOfKey(ns, n.identityKey);
    var once := Upsert(ns, n).0;
    if index == |ns| {
      assert once[0] == n;
    } else {
      SameFirst(ns, once, n.identityKey);
    }
  }

  lemma SameFirst(a: seq<Notification>, b: seq<Notification>, key: string)
    requires |a| == |b| && forall k | 0 <= k < |a| :: a[k].identityKey == b[k].identityKey
    ensures IndexOfKey(a, key) == IndexOfKey(b, key)
  {
    var i, j := IndexOfKey(a, key), IndexOfKey(b, key);
    assert i < |a| ==> b[i].identityKey == key;
    assert j < |b| ==> a[j].identityKey == key;
  }

  lemma {:induction false} CountAt(ns: seq<Notification>, i: nat, n: Notification)
    requires i < |ns|
    ensures CountUnread(ns[i := n]) == CountUnread(ns)
      - (if !ns[i].read && !ns[i].dismissed then 1 else 0) + (if !n.read && !n.dismissed then 1 else 0)
  {
    if i == 0 {
      assert ns[0 := n][1..] == ns[1..];
    } else {
      CountAt(ns[1..], i - 1, n);
      assert ns[i := n][1..] == ns[1..][i - 1 := n];
    }
  }

  /**
   * What an alert does to the unread count: one more if it is new or refreshes a read notification that
   * is not dismissed, otherwise nothing. Refreshing a dismissed notification never changes it.
   */
  lemma AlertUnreadCount(ns: seq<Notification>, input: Input, clock: string)
    ensures
      var n := Create(input, clock);
      var (after, outcome) := Upsert(ns, n);
      CountUnread(after) == CountUnread(ns) +
        match outcome
        case Created => 1
        case Duplicate => 0
        case Updated =>
          var current := ns[IndexOfKey(ns, n.identityKey)];
          if current.read && !current.dismissed then 1 else 0
  {
    var n := Create(input, clock);
    var index := IndexOfKey(ns, n.identityKey);
    if index == |ns| {
      assert ([n] + ns)[1..] == ns;
    } else {
      CountAt(ns, index, Refreshed(ns[index], n));
    }
  }

  // ----- Dismissal and versions over runs --------------------------------------------------------------

  predicate Has(ns: seq<Notification>, key: string) {
    IndexOfKey(ns, key) < |ns|
  }

  function At(ns: seq<Notification>, key: string): Notification
    requires Has(ns, key)
  {
    ns[IndexOfKey(ns, key)]
  }

  lemma AtIs(ns: seq<Notification>, key: string, i: nat)
    requires UniqueIdentities(ns) && i < |ns| && ns[i].identityKey == key
    ensures Has(ns, key) && At(ns, key) == ns[i]
  {
    var j := IndexOfKey(ns, key);
    assert j <= i;
  }

  /** Whether this operation refreshes the notification with this key. */
  predicate Refreshes(ns: seq<Notification>, op: Op, key: string) {
    && op.Alert? && Create(op.input, op.clock).identityKey == key
    && Upsert(ns, Create(op.input, op.clock)).1 == Updated
  }

  /** Still dismissed if it was, and updated so many times. */
  predicate Carried(before: Notification, after: Notification, updates: nat) {
    (before.dismissed ==> after.dismissed) && after.version == before.version + updates
  }

  /**
   * A notification that survives a step keeps its dismissal, and its version grows by one exactly when it
   * is refreshed.
   */
  lemma {:induction false} StepOnOne(host: Host, ns: seq<Notification>, op: Op, key: string)
    requires Inv(ns) && Has(ns, key) && Has(Apply(host, ns, op), key)
    ensures
      Carried(At(ns, key), At(Apply(host, ns, op), key), if Refreshes(ns, op, key) then 1 else 0)
  {
    if op.Alert? {
      AlertOnOne(ns, Create(op.input, op.clock), key);
    } else {
      QuietOnOne(host, ns, op, key);
    }
  }

  lemma {:induction false} QuietOnOne(host: Host, ns: seq<Notification>, op: Op, key: string)
    requires Inv(ns) && !op.Alert? && Has(ns, key) && Has(Apply(host, ns, op), key)
    ensures Carried(At(ns, key), At(Apply(host, ns, op), key), 0)
  {
    match op
    case Expire(now) =>
      PruneSelects(host, ns, now);
      SurvivorIsSame(ns, Prune(host, ns, now), key);
    case Sort => SortedOnOne(host, ns, key);
    case Read(id) => FlagsOnOne(ns, id, None, key);
    case ReadAll => FlagsOnOne(ns, "", None, key);
    case Hide(id) => FlagsOnOne(ns, id, None, key);
    case HideAll(scope) => FlagsOnOne(ns, "", scope, key);
  }

  lemma SortedOnOne(host: Host, ns: seq<Notification>, key: string)
    requires UniqueIdentities(ns) && Has(ns, key) && Has(SortAll(host, ns), key)
    ensures At(SortAll(host, ns), key) == At(ns, key)
  {
    Sorting.SortPermutes(ListOrder(host), ns);
    forall n | n in SortAll(host, ns) ensures n in ns {
      assert n in multiset(SortAll(host, ns));
    }
    SurvivorIsSame(ns, SortAll(host, ns), key);
  }

  lemma {:induction false} FlagsOnOne(ns: seq<Notification>, id: string, scope: Option<Scope>, key: string)
    requires Has(ns, key)
    ensures Has(MarkRead(ns, id), key) && Carried(At(ns, key), At(MarkRead(ns, id), key), 0)
    ensures Has(MarkAllRead(ns), key) && Carried(At(ns, key), At(MarkAllRead(ns), key), 0)
    ensures Has(Dismiss(ns, id), key) && Carried(At(ns, key), At(Dismiss(ns, id), key), 0)
    ensures Has(DismissAll(ns, scope), key) && Carried(At(ns, key), At(DismissAll(ns, scope), key), 0)
  {
    FlagsKeepEntries(ns, id, scope);
    EntryKept(ns, MarkRead(ns, id), key);
    EntryKept(ns, MarkAllRead(ns), key);
    EntryKept(ns, Dismiss(ns, id), key);
    EntryKept(ns, DismissAll(ns, scope), key);
  }

  lemma EntryKept(a: seq<Notification>, b: seq<Notification>, key: string)
    requires SameEntries(a, b) && Has(a, key)
    ensures Has(b, key) && SameEntry(At(a, key), At(b, key))
  {
    forall k | 0 <= k < |a| ensures a[k].identityKey == b[k].identityKey {
      assert SameEntry(a[k], b[k]);
    }
    SameFirst(a, b, key);
  }

  lemma AlertOnOne(ns: seq<Notification>, n: Notification, key: string)
    requires UniqueIdentities(ns) && Has(ns, key) && Has(Upsert(ns, n).0, key)
    ensures
      Carried(At(ns, key), At(Upsert(ns, n).0, key),
              if n.identityKey == key && Upsert(ns, n).1 == Updated then 1 else 0)
  {
    var index := IndexOfKey(ns, n.identityKey);
    var after := Upsert(ns, n).0;
    if index == |ns| {
      assert n.identityKey != key;
      assert after[1..] == ns;
      assert IndexOfKey(after, key) == 1 + IndexOfKey(ns, key);
    } else {
      assert forall k | 0 <= k < |ns| :: after[k].identityKey == ns[k].identityKey;
      SameFirst(ns, after, key);
    }
  }

  lemma SurvivorIsSame(ns: seq<Notification>, after: seq<Notification>, key: string)
    requires UniqueIdentities(ns) && Has(ns, key) && Has(after, key)
    requires forall n | n in after :: n in ns
    ensures At(after, key) == At(ns, key)
  {
    var n := At(after, key);
    assert n in ns;
    var i :| 0 <= i < |ns| && ns[i] == n;
    AtIs(ns, key, i);
  }

  /** The key is in the list before and after every operation of the run. */
  predicate Survives(host: Host, ns: seq<Notification>, ops: seq<Op>, key: string)
    decreases ops
  {
    Has(ns, key) && (ops == [] || Survives(host, Apply(host, ns, ops[0]), ops[1..], key))
  }

  function Updates(host: Host, ns: seq<Notification>, ops: seq<Op>, key: string): nat
    decreases ops
  {
    if ops == [] then 0
    else (if Refreshes(ns, ops[0], key) then 1 else 0) + Updates(host, Apply(host, ns, ops[0]), ops[1..], key)
  }

  /**
   * Over any run in which an identity is never pruned: once dismissed it stays dismissed, and its
   * version has grown by exactly the number of updates.
   */
  lemma {:induction false} RunOnOne(host: Host, ns: seq<Notification>, ops: seq<Op>, key: string)
    requires Inv(ns) && Survives(host, ns, ops, key)
    ensures Has(Run(host, ns, ops), key)
    ensures
      Carried(At(ns, key), At(Run(host, ns, ops), key), Updates(host, ns, ops, key))
    decreases ops
  {
    if ops != [] {
      StepKeepsInv(host, ns, ops[0]);
      StepOnOne(host, ns, ops[0], key);
      RunOnOne(host, Apply(host, ns, ops[0]), ops[1..], key);
    }
  }

  // ----- Ordering ------------------------------------------------------------------------------------------

  predicate ReadableDates(host: Host, ns: seq<Notification>) {
    forall i | 0 <= i < |ns| :: host.parse(ns[i].date).Some?
  }

  /** The order used where every date is readable. */
  predicate NewerOrTied(host: Host, a: Notification, b: Notification) {
    var ta, tb := host.parse(a.date).GetOr(0), host.parse(b.date).GetOr(0);
    if ta != tb then tb < ta else host.compare(a.identityKey, b.identityKey) <= 0
  }

  function ReadableOrder(host: Host): (Notification, Notification) -> bool {
    (a: Notification, b: Notification) => NewerOrTied(host, a, b)
  }

  lemma ReadableOrderTotal(host: Host)
    requires LocaleOrder(host.compare)
    ensures Sorting.TotalPreorder(ReadableOrder(host))
  {
    var le := ReadableOrder(host);
    forall a: Notification, b: Notification, c: Notification | le(a, b) && le(b, c) ensures le(a, c) {
      assert host.compare(a.identityKey, b.identityKey) <= 0 && host.compare(b.identityKey, c.identityKey) <= 0
        ==> host.compare(a.identityKey, c.identityKey) <= 0;
    }
    forall a: Notification, b: Notification ensures le(a, b) || le(b, a) {
      assert host.compare(a.identityKey, b.identityKey) <= 0 <==> host.compare(b.identityKey, a.identityKey) >= 0;
    }
  }

  lemma {:induction false} SameInsert(host: Host, n: Notification, ns: seq<Notification>)
    requires host.parse(n.date).Some? && ReadableDates(host, ns)
    ensures Sorting.Insert(ListOrder(host), n, ns) == Sorting.Insert(ReadableOrder(host), n, ns)
  {
    if ns != [] {
      assert ListedBefore(host, n, ns[0]) == NewerOrTied(host, n, ns[0]);
      SameInsert(host, n, ns[1..]);
    }
  }

  lemma {:induction false} SameSort(host: Host, ns: seq<Notification>)
    requires ReadableDates(host, ns)
    ensures SortAll(host, ns) == Sorting.Sort(ReadableOrder(host), ns)
  {
    if ns != [] {
      SameSort(host, ns[1..]);
      var tail := Sorting.Sort(ReadableOrder(host), ns[1..]);
      Sorting.SortPermutes(ReadableOrder(host), ns[1..]);
      forall i | 0 <= i < |tail| ensures host.parse(tail[i].date).Some? {
        assert tail[i] in multiset(tail);
        assert tail[i] in ns[1..];
      }
      SameInsert(host, ns[0], tail);
    }
  }

  /** With readable dates the displayed order is newest first, then by key, however the list was arranged. */
  lemma SortForgetsOrder(host: Host, a: seq<Notification>, b: seq<Notification>)
    requires LocaleOrder(host.compare) && ReadableDates(host, a) && UniqueIdentities(a) && multiset(a) == multiset(b)
    ensures SortAll(host, a) == SortAll(host, b)
    ensures Sorting.SortedBy(ReadableOrder(host), SortAll(host, a))
  {
    var le := ReadableOrder(host);
    ReadableOrderTotal(host);
    forall i | 0 <= i < |b| ensures b[i] in a {
      assert b[i] in multiset(b);
    }
    SameSort(host, a);
    SameSort(host, b);
    Sorting.SortSorted(le, a);
    forall x, y | x in a && y in a && le(x, y) && le(y, x) ensures x == y {
      assert host.compare(x.identityKey, y.identityKey) <= 0 <==> host.compare(y.identityKey, x.identityKey) >= 0;
      assert host.compare(y.identityKey, x.identityKey) <= 0 <==> host.compare(x.identityKey, y.identityKey) >= 0;
    }
    Sorting.SortForgetsOrder(le, a, b);
  }
}
