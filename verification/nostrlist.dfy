/** NIP-51 people lists (kind 30000): fetching a user's lists, naming them,
    and collecting their members from public `p` tags and from the
    encrypted private section. Relay I/O, NIP-19 codecs, NIP-44/NIP-04
    decryption and JSON parsing are parameters. */
module NostrList {
  import opened Base
  import opened Nostr

  const PeopleListKind: int := 30000

  /** An event as delivered by a relay. */
  datatype ListEvent = ListEvent(id: string, createdAt: int, tags: seq<Tag>, content: string)

  /** A list after processing. Members are a set: the source collects them
      in a map, so their order is unspecified. */
  datatype PrivateList = PrivateList(id: string, title: string, npubs: set<string>,
                                     eventId: string, createdAt: int, hasPrivate: bool)

  /** The cryptographic and encoding operations the list code calls.
      `conversationKey(pub, priv)` is NIP-44's key derivation,
      `nip44(content, key)` and `nip04(content, key)` decrypt (the key handed
      to NIP-04 is the private key itself, not a shared secret), `parseTags` is JSON decoding of a tag array, and
      `encodeNpub` is NIP-19 encoding of a hex public key. `None` is an error. */
  datatype ListCrypto = ListCrypto(
    conversationKey: (string, string) -> Option<string>,
    nip44: (string, string) -> Option<string>,
    nip04: (string, string) -> Option<string>,
    parseTags: string -> Option<seq<Tag>>,
    encodeNpub: string -> Option<string>)

  // ---------------------------------------------------------------- tags

  /** A tag with at least a name and a value, named `name`; with `nonEmpty`
      the value must also be non-empty. */
  predicate TagMatches(tag: Tag, name: string, nonEmpty: bool) {
    |tag| >= 2 && tag[0] == name && (!nonEmpty || tag[1] != "")
  }

  /** Index of the first matching tag, or `|tags|` when there is none. */
  function FirstTagIndex(tags: seq<Tag>, name: string, nonEmpty: bool): (i: nat)
    ensures i <= |tags|
    ensures i < |tags| ==> TagMatches(tags[i], name, nonEmpty)
    ensures forall j :: 0 <= j < i ==> !TagMatches(tags[j], name, nonEmpty)
    decreases |tags|
  {
    if |tags| == 0 then 0
    else if TagMatches(tags[0], name, nonEmpty) then 0
    else 1 + FirstTagIndex(tags[1..], name, nonEmpty)
  }

  /** The value of the first matching tag. */
  function FirstTagValue(tags: seq<Tag>, name: string, nonEmpty: bool): Option<string> {
    var i := FirstTagIndex(tags, name, nonEmpty);
    if i < |tags| then Some(tags[i][1]) else None
  }

  /** The list identifier: the value of the first `d` tag, or "" when there
      is none. An empty first `d` value also gives "", whatever follows. */
  function ListId(tags: seq<Tag>): (id: string)
    ensures id != "" ==> id in TagValues(tags)
  {
    match FirstTagValue(tags, "d", false)
    case None => ""
    case Some(v) => v
  }

  /** A non-empty identifier is the value of the first `d` tag; without a
      `d` tag there is no identifier. */
  lemma ListIdFromFirstDTag(tags: seq<Tag>)
    ensures ListId(tags) != "" ==>
      exists i :: (0 <= i < |tags| && TagMatches(tags[i], "d", true) && tags[i][1] == ListId(tags)
                   && forall j :: 0 <= j < i ==> !TagMatches(tags[j], "d", false))
    ensures (forall i :: 0 <= i < |tags| ==> !TagMatches(tags[i], "d", false)) ==> ListId(tags) == ""
  {
  }

  /** The display title: a non-empty `name` tag, then a non-empty `title`
      tag, then the identifier. The `title` tag is also consulted when the
      name happens to equal the identifier. */
  function ListTitle(tags: seq<Tag>, id: string): (title: string)
    ensures title == id || title in TagValues(tags)
  {
    var byName := match FirstTagValue(tags, "name", true) case Some(n) => n case None => id;
    if byName == id then
      match FirstTagValue(tags, "title", true) case Some(t) => t case None => byName
    else byName
  }

  /** The title's precedence, stated per case. */
  lemma TitlePrecedence(tags: seq<Tag>, id: string)
    ensures (FirstTagValue(tags, "name", true).Some? && FirstTagValue(tags, "name", true).value != id)
              ==> ListTitle(tags, id) == FirstTagValue(tags, "name", true).value
    ensures (FirstTagValue(tags, "name", true).None? || FirstTagValue(tags, "name", true).value == id)
              ==> ListTitle(tags, id) == (match FirstTagValue(tags, "title", true) case Some(t) => t case None => id)
    ensures ListTitle(tags, id) == id || ListTitle(tags, id) in TagValues(tags)
  {
  }

  /** Every tag value present in `tags`. */
  function TagValues(tags: seq<Tag>): set<string> {
    set i | 0 <= i < |tags| && |tags[i]| >= 2 :: tags[i][1]
  }

  // ------------------------------------------------------------- members

  /** `tag` is a `p` tag whose value NIP-19-encodes to `npub`. */
  predicate EncodesTo(tag: Tag, encode: string -> Option<string>, npub: string) {
    TagMatches(tag, "p", false) && encode(tag[1]) == Some(npub)
  }

  /** The npubs of all `p` tags whose key encodes; the others are skipped. */
  function EncodedPMembers(tags: seq<Tag>, encode: string -> Option<string>): (r: set<string>)
    ensures forall x :: x in r <==> exists i :: 0 <= i < |tags| && EncodesTo(tags[i], encode, x)
    decreases |tags|
  {
    if |tags| == 0 then {}
    else
      var rest := EncodedPMembers(tags[1..], encode);
      assert forall i :: 1 <= i < |tags| ==> tags[i] == tags[1..][i - 1];
      var head := if TagMatches(tags[0], "p", false) && encode(tags[0][1]).Some?
                  then {encode(tags[0][1]).value} else {};
      assert forall x :: x in rest ==> exists i :: 0 <= i < |tags| && EncodesTo(tags[i], encode, x) by {
        forall x | x in rest ensures exists i :: 0 <= i < |tags| && EncodesTo(tags[i], encode, x) {
          var k :| 0 <= k < |tags[1..]| && EncodesTo(tags[1..][k], encode, x);
          assert EncodesTo(tags[k + 1], encode, x);
        }
      }
      head + rest
  }

  /** Hex as accepted by Go's `hex.DecodeString`: even length, every
      character a hexadecimal digit of either case. */
  predicate IsHexString(s: string) {
    |s| % 2 == 0 && forall i :: 0 <= i < |s| ==> IsHexChar(s[i])
  }

  predicate IsHexChar(ch: char) {
    ('0' <= ch <= '9') || ('a' <= ch <= 'f') || ('A' <= ch <= 'F')
  }

  /** `decryptContent`: the private key must be valid hex; NIP-44 is tried
      first and NIP-04 only if NIP-44's key derivation or decryption fails. */
  function DecryptContent(content: string, privHex: string, pubHex: string, crypto: ListCrypto): (r: Option<string>)
    ensures !IsHexString(privHex) ==> r.None?
    ensures (IsHexString(privHex) && crypto.conversationKey(pubHex, privHex).Some?
              && crypto.nip44(content, crypto.conversationKey(pubHex, privHex).value).Some?)
              ==> r == crypto.nip44(content, crypto.conversationKey(pubHex, privHex).value)
    ensures r.Some? ==> (r == crypto.nip04(content, privHex)
              || (crypto.conversationKey(pubHex, privHex).Some?
                  && r == crypto.nip44(content, crypto.conversationKey(pubHex, privHex).value)))
  {
    if !IsHexString(privHex) then None
    else
      var key := crypto.conversationKey(pubHex, privHex);
      if key.Some? && crypto.nip44(content, key.value).Some? then crypto.nip44(content, key.value)
      else crypto.nip04(content, privHex)
  }

  /** NIP-04 is the fallback: it decides the result exactly when NIP-44
      could not decrypt. */
  lemma Nip04OnlyAsFallback(content: string, privHex: string, pubHex: string, crypto: ListCrypto)
    requires IsHexString(privHex)
    ensures (crypto.conversationKey(pubHex, privHex).None?
             || crypto.nip44(content, crypto.conversationKey(pubHex, privHex).value).None?)
            ==> DecryptContent(content, privHex, pubHex, crypto) == crypto.nip04(content, privHex)
  {
  }

  /** `parseDecryptedTags`: malformed JSON yields no tags. */
  function ParseDecryptedTags(plaintext: string, crypto: ListCrypto): (tags: seq<Tag>)
    ensures crypto.parseTags(plaintext).None? ==> tags == []
    ensures crypto.parseTags(plaintext).Some? ==> tags == crypto.parseTags(plaintext).value
  {
    match crypto.parseTags(plaintext) case Some(t) => t case None => []
  }

  /** The tags of the encrypted private section: none when the content is
      empty, decryption fails or the plaintext is empty. */
  function PrivateTags(e: ListEvent, privHex: string, pubHex: string, crypto: ListCrypto): seq<Tag> {
    if e.content == "" then []
    else
      match DecryptContent(e.content, privHex, pubHex, crypto)
      case None => []
      case Some(plain) => if plain == "" then [] else ParseDecryptedTags(plain, crypto)
  }

  /** `npub` comes from a `p` tag of the private section. */
  predicate PrivateMember(e: ListEvent, privHex: string, pubHex: string, crypto: ListCrypto, npub: string) {
    var tags := PrivateTags(e, privHex, pubHex, crypto);
    exists i :: 0 <= i < |tags| && EncodesTo(tags[i], crypto.encodeNpub, npub)
  }

  /** `extractAllNPubs`: the members are the encodable `p` keys of the
      public tags and of the private section; the list counts as private
      when at least one private `p` key encoded. */
  function ExtractAllNPubs(e: ListEvent, privHex: string, pubHex: string, crypto: ListCrypto): (r: (set<string>, bool))
    ensures forall x :: x in r.0 <==>
      ((exists i :: 0 <= i < |e.tags| && EncodesTo(e.tags[i], crypto.encodeNpub, x))
       || (exists i :: 0 <= i < |PrivateTags(e, privHex, pubHex, crypto)|
             && EncodesTo(PrivateTags(e, privHex, pubHex, crypto)[i], crypto.encodeNpub, x)))
    ensures r.1 <==> exists x :: PrivateMember(e, privHex, pubHex, crypto, x)
    ensures e.content == "" ==> !r.1
  {
    var pub := EncodedPMembers(e.tags, crypto.encodeNpub);
    var priv := EncodedPMembers(PrivateTags(e, privHex, pubHex, crypto), crypto.encodeNpub);
    assert forall x :: x in priv <==> PrivateMember(e, privHex, pubHex, crypto, x);
    assert priv != {} ==> exists x :: x in priv;
    (pub + priv, priv != {})
  }

  // --------------------------------------------------------------- lists

  function EventListId(e: ListEvent): string {
    ListId(e.tags)
  }

  /** The list built from event `e` with identifier `id`. */
  function MakeList(e: ListEvent, id: string, privHex: string, pubHex: string, crypto: ListCrypto): (l: PrivateList)
    ensures l.id == id && l.eventId == e.id && l.createdAt == e.createdAt
  {
    var (npubs, hasPrivate) := ExtractAllNPubs(e, privHex, pubHex, crypto);
    PrivateList(id, ListTitle(e.tags, id), npubs, e.id, e.createdAt, hasPrivate)
  }

  /** Index of the first event whose identifier is `id`, or `|events|`. */
  function FirstIndex(events: seq<ListEvent>, id: string): (i: nat)
    ensures i <= |events|
    ensures i < |events| ==> EventListId(events[i]) == id
    ensures forall j :: 0 <= j < i ==> EventListId(events[j]) != id
    decreases |events|
  {
    if |events| == 0 then 0
    else if EventListId(events[0]) == id then 0
    else 1 + FirstIndex(events[1..], id)
  }

  /** The identifiers of a sequence of lists. */
  function ListIds(lists: seq<PrivateList>): set<string> {
    set k | 0 <= k < |lists| :: lists[k].id
  }

  /** The identifiers carried by the events (the empty one excluded). */
  function EventIds(events: seq<ListEvent>): set<string> {
    set i | 0 <= i < |events| && EventListId(events[i]) != "" :: EventListId(events[i])
  }

  /** The loop of `processEvents` without the list building: the events
      that make a list, each paired with its identifier. Events without an
      identifier and identifiers already in `seen` are skipped. */
  function Selected(events: seq<ListEvent>, seen: set<string>): (r: seq<(string, ListEvent)>)
    ensures forall k :: 0 <= k < |r| ==> r[k].0 != "" && r[k].0 !in seen
    ensures forall k, l :: 0 <= k < l < |r| ==> r[k].0 != r[l].0
    decreases |events|
  {
    if |events| == 0 then []
    else
      var id := EventListId(events[0]);
      if id == "" || id in seen then Selected(events[1..], seen)
      else [(id, events[0])] + Selected(events[1..], seen + {id})
  }

  /** Each pair names the first event carrying its identifier. */
  predicate FirstOccurrences(events: seq<ListEvent>, sel: seq<(string, ListEvent)>) {
    forall k :: 0 <= k < |sel| ==> FirstIndex(events, sel[k].0) < |events| && sel[k].1 == events[FirstIndex(events, sel[k].0)]
  }

  /** The pairs are in order of their identifiers' first appearance. */
  predicate InFirstAppearanceOrder(events: seq<ListEvent>, sel: seq<(string, ListEvent)>) {
    forall k, l :: 0 <= k < l < |sel| ==> FirstIndex(events, sel[k].0) < FirstIndex(events, sel[l].0)
  }

  /** Every non-empty identifier outside `seen` is paired. */
  predicate CoversIds(events: seq<ListEvent>, seen: set<string>, sel: seq<(string, ListEvent)>) {
    forall i :: 0 <= i < |events| && EventListId(events[i]) != "" && EventListId(events[i]) !in seen
      ==> exists k :: 0 <= k < |sel| && sel[k].0 == EventListId(events[i])
  }

  /** Each selected event is the first one carrying its identifier. */
  lemma {:induction false} SelectedFirstOccurrence(events: seq<ListEvent>, seen: set<string>)
    ensures FirstOccurrences(events, Selected(events, seen))
    decreases |events|
  {
    if |events| > 0 {
      var id := EventListId(events[0]);
      var tail := events[1..];
      var r := Selected(events, seen);
      var seen' := if id == "" || id in seen then seen else seen + {id};
      var rest := Selected(tail, seen');
      var offset := if id == "" || id in seen then 0 else 1;
      assert r == (if offset == 0 then rest else [(id, events[0])] + rest);
      SelectedFirstOccurrence(tail, seen');
      assert FirstOccurrences(tail, rest);
      forall k | 0 <= k < |r|
        ensures FirstIndex(events, r[k].0) < |events| && r[k].1 == events[FirstIndex(events, r[k].0)]
      {
        if k >= offset {
          var x := rest[k - offset];
          assert r[k] == x;
          assert x.0 != id;
          var f := FirstIndex(tail, x.0);
          assert f < |tail| && x.1 == tail[f];
          assert FirstIndex(events, x.0) == 1 + f;
          assert events[1 + f] == tail[f];
        }
      }
    }
  }

  /** Selected events keep the order in which their identifiers first appear. */
  lemma {:induction false} SelectedOrder(events: seq<ListEvent>, seen: set<string>)
    ensures InFirstAppearanceOrder(events, Selected(events, seen))
    decreases |events|
  {
    if |events| > 0 {
      var id := EventListId(events[0]);
      if id == "" || id in seen {
        SelectedOrder(events[1..], seen);
        OrderAfterSkip(events, Selected(events[1..], seen));
      } else {
        SelectedOrder(events[1..], seen + {id});
        var rest := Selected(events[1..], seen + {id});
        OrderAfterSkip(events, rest);
        OrderAfterKeep(events, rest);
      }
    }
  }

  /** Pairs ordered against the tail stay ordered against the whole
      sequence when none of them carries the head's identifier. */
  lemma OrderAfterSkip(events: seq<ListEvent>, rest: seq<(string, ListEvent)>)
    requires |events| > 0
    requires forall k :: 0 <= k < |rest| ==> rest[k].0 != EventListId(events[0])
    requires InFirstAppearanceOrder(events[1..], rest)
    ensures InFirstAppearanceOrder(events, rest)
  {
  }

  /** Prefixing the head's pair keeps the order. */
  lemma OrderAfterKeep(events: seq<ListEvent>, rest: seq<(string, ListEvent)>)
    requires |events| > 0
    requires forall k :: 0 <= k < |rest| ==> rest[k].0 != EventListId(events[0])
    requires InFirstAppearanceOrder(events, rest)
    ensures InFirstAppearanceOrder(events, [(EventListId(events[0]), events[0])] + rest)
  {
  }

  /** Every event with a new, non-empty identifier has its identifier selected. */
  lemma {:induction false} SelectedComplete(events: seq<ListEvent>, seen: set<string>)
    ensures CoversIds(events, seen, Selected(events, seen))
    decreases |events|
  {
    if |events| > 0 {
      var id := EventListId(events[0]);
      var tail := events[1..];
      var r := Selected(events, seen);
      var seen' := if id == "" || id in seen then seen else seen + {id};
      var rest := Selected(tail, seen');
      var offset := if id == "" || id in seen then 0 else 1;
      assert r == (if offset == 0 then rest else [(id, events[0])] + rest);
      SelectedComplete(tail, seen');
      assert CoversIds(tail, seen', rest);
      forall i | 0 <= i < |events| && EventListId(events[i]) != "" && EventListId(events[i]) !in seen
        ensures exists k :: 0 <= k < |r| && r[k].0 == EventListId(events[i])
      {
        if EventListId(events[i]) == id {
          assert r[0].0 == id;
        } else {
          assert EventListId(tail[i - 1]) == EventListId(events[i]);
          var k :| 0 <= k < |rest| && rest[k].0 == EventListId(events[i]);
          assert r[k + offset].0 == EventListId(events[i]);
        }
      }
    }
  }

  /** `processEvents`: one list per selected event. */
  function ProcessEvents(events: seq<ListEvent>, privHex: string, pubHex: string, crypto: ListCrypto): (r: seq<PrivateList>)
    ensures var sel := Selected(events, {});
      |r| == |sel| && forall k :: 0 <= k < |r| ==> r[k] == MakeList(sel[k].1, sel[k].0, privHex, pubHex, crypto)
    ensures forall k :: 0 <= k < |r| ==> r[k].id != ""
    ensures forall k, l :: 0 <= k < l < |r| ==> r[k].id != r[l].id
  {
    var sel := Selected(events, {});
    seq(|sel|, k requires 0 <= k < |sel| => MakeList(sel[k].1, sel[k].0, privHex, pubHex, crypto))
  }

  /** The identifiers of the selected pairs. */
  function SelectedIds(sel: seq<(string, ListEvent)>): set<string> {
    set k | 0 <= k < |sel| :: sel[k].0
  }

  /** Starting from nothing seen, exactly the events' identifiers are selected. */
  lemma SelectedIdsAreEventIds(events: seq<ListEvent>)
    ensures SelectedIds(Selected(events, {})) == EventIds(events)
  {
    var sel := Selected(events, {});
    SelectedFirstOccurrence(events, {});
    SelectedComplete(events, {});
    forall x | x in SelectedIds(sel) ensures x in EventIds(events) {
      var k :| 0 <= k < |sel| && sel[k].0 == x;
      var i := FirstIndex(events, x);
      assert EventListId(events[i]) == x;
    }
    forall x | x in EventIds(events) ensures x in SelectedIds(sel) {
      var i :| 0 <= i < |events| && EventListId(events[i]) != "" && EventListId(events[i]) == x;
      var k :| 0 <= k < |sel| && sel[k].0 == x;
    }
  }

  /** `processEvents` returns one list per distinct non-empty identifier
      among the events. */
  lemma ProcessEventsIds(events: seq<ListEvent>, privHex: string, pubHex: string, crypto: ListCrypto)
    ensures var r := ProcessEvents(events, privHex, pubHex, crypto);
      (forall k, l :: 0 <= k < l < |r| ==> r[k].id != r[l].id) && ListIds(r) == EventIds(events)
  {
    var r := ProcessEvents(events, privHex, pubHex, crypto);
    var sel := Selected(events, {});
    SelectedIdsAreEventIds(events);
    assert forall k :: 0 <= k < |r| ==> r[k].id == sel[k].0;
    assert ListIds(r) == SelectedIds(sel);
  }

  /** Each list `processEvents` returns is built from the first event
      carrying its identifier, and the lists come in order of first
      appearance. */
  lemma ProcessEventsFirstOccurrence(events: seq<ListEvent>, privHex: string, pubHex: string, crypto: ListCrypto)
    ensures var r := ProcessEvents(events, privHex, pubHex, crypto);
      forall k :: 0 <= k < |r| ==>
        FirstIndex(events, r[k].id) < |events|
        && r[k] == MakeList(events[FirstIndex(events, r[k].id)], r[k].id, privHex, pubHex, crypto)
    ensures var r := ProcessEvents(events, privHex, pubHex, crypto);
      forall k, l :: 0 <= k < l < |r| ==> FirstIndex(events, r[k].id) < FirstIndex(events, r[l].id)
  {
    var r := ProcessEvents(events, privHex, pubHex, crypto);
    var sel := Selected(events, {});
    SelectedFirstOccurrence(events, {});
    SelectedOrder(events, {});
    assert forall k :: 0 <= k < |r| ==> r[k].id == sel[k].0;
  }

  // ------------------------------------------------------------ fetching

  datatype ListError =
    | InvalidNpub
    | ExpectedNpubPrefix
    | InvalidNsec
    | ExpectedNsecPrefix
    | ListNotFound(listId: string)

  /** The relay query: kind-30000 events by the author. */
  datatype ListFilter = ListFilter(kinds: seq<int>, authors: seq<string>)

  /** `FetchPrivateLists`. `npub` and `nsec` are what NIP-19 decoding of the
      configured keys gave (`None` on a decoding error, else the prefix and
      the hex value); `fetch` is the relay pool. Every fetched event is
      collected, however many arrive (compare `FetchPrivateListsAsWritten`). */
  function FetchPrivateLists(npub: Option<(string, string)>, nsec: Option<(string, string)>,
                             fetch: ListFilter -> seq<ListEvent>, crypto: ListCrypto): (r: Result<seq<PrivateList>, ListError>)
    ensures npub.None? ==> r == Err(InvalidNpub)
    ensures npub.Some? && npub.value.0 != "npub" ==> r == Err(ExpectedNpubPrefix)
    ensures npub.Some? && npub.value.0 == "npub" && nsec.None? ==> r == Err(InvalidNsec)
    ensures npub.Some? && npub.value.0 == "npub" && nsec.Some? && nsec.value.0 != "nsec" ==> r == Err(ExpectedNsecPrefix)
    ensures r.Ok? <==> npub.Some? && npub.value.0 == "npub" && nsec.Some? && nsec.value.0 == "nsec"
    ensures r.Ok? ==> r.value == ProcessEvents(fetch(ListFilter([PeopleListKind], [npub.value.1])),
                                               nsec.value.1, npub.value.1, crypto)
  {
    if npub.None? then Err(InvalidNpub)
    else if npub.value.0 != "npub" then Err(ExpectedNpubPrefix)
    else if nsec.None? then Err(InvalidNsec)
    else if nsec.value.0 != "nsec" then Err(ExpectedNsecPrefix)
    else
      var pubHex := npub.value.1;
      var privHex := nsec.value.1;
      Ok(ProcessEvents(fetch(ListFilter([PeopleListKind], [pubHex])), privHex, pubHex, crypto))
  }

  /** Index of the first list named `listId`, or `|lists|`. */
  function FindList(lists: seq<PrivateList>, listId: string): (k: nat)
    ensures k <= |lists|
    ensures k < |lists| ==> lists[k].id == listId
    ensures k == |lists| <==> listId !in ListIds(lists)
    decreases |lists|
  {
    if |lists| == 0 then 0
    else if lists[0].id == listId then 0
    else
      var k := 1 + FindList(lists[1..], listId);
      assert forall j :: 1 <= j < |lists| ==> lists[j] == lists[1..][j - 1];
      assert listId in ListIds(lists[1..]) ==> listId in ListIds(lists) by {
        if listId in ListIds(lists[1..]) {
          var j :| 0 <= j < |lists[1..]| && lists[1..][j].id == listId;
          assert lists[j + 1].id == listId;
        }
      }
      k
  }

  /** `GetNPubsFromList`: the members of the list with the given identifier. */
  function GetNPubsFromList(npub: Option<(string, string)>, nsec: Option<(string, string)>,
                            fetch: ListFilter -> seq<ListEvent>, crypto: ListCrypto, listId: string): (r: Result<set<string>, ListError>)
    ensures FetchPrivateLists(npub, nsec, fetch, crypto).Err? ==> r == Err(FetchPrivateLists(npub, nsec, fetch, crypto).error)
    ensures var f := FetchPrivateLists(npub, nsec, fetch, crypto);
      r.Ok? ==> exists k :: 0 <= k < |f.value| && f.value[k].id == listId && f.value[k].npubs == r.value
    ensures r == Err(ListNotFound(listId)) <==> (FetchPrivateLists(npub, nsec, fetch, crypto).Ok?
              && listId !in ListIds(FetchPrivateLists(npub, nsec, fetch, crypto).value))
  {
    match FetchPrivateLists(npub, nsec, fetch, crypto)
    case Err(e) => Err(e)
    case Ok(lists) =>
      var k := FindList(lists, listId);
      if k < |lists| then Ok(lists[k].npubs) else Err(ListNotFound(listId))
  }

  /** The events the relays return for the author's lists. */
  function FetchedEvents(npub: Option<(string, string)>, fetch: ListFilter -> seq<ListEvent>): seq<ListEvent>
    requires npub.Some?
  {
    fetch(ListFilter([PeopleListKind], [npub.value.1]))
  }

  /** A list is found exactly when some fetched event carries its identifier
      (the empty identifier is never found). */
  lemma ListFoundIffEventCarriesId(npub: Option<(string, string)>, nsec: Option<(string, string)>,
                                   fetch: ListFilter -> seq<ListEvent>, crypto: ListCrypto, listId: string)
    requires FetchPrivateLists(npub, nsec, fetch, crypto).Ok?
    ensures GetNPubsFromList(npub, nsec, fetch, crypto, listId).Ok?
            <==> (listId != "" && exists i :: 0 <= i < |FetchedEvents(npub, fetch)| && EventListId(FetchedEvents(npub, fetch)[i]) == listId)
  {
    var events := FetchedEvents(npub, fetch);
    ProcessEventsIds(events, nsec.value.1, npub.value.1, crypto);
    if listId != "" && exists i :: 0 <= i < |events| && EventListId(events[i]) == listId {
      var i :| 0 <= i < |events| && EventListId(events[i]) == listId;
      assert listId in EventIds(events);
    }
  }

  // ------------------------------------------- the event buffer as written

  /** Capacity of the channel `FetchPrivateLists` collects events into. */
  const EventBufferSize: nat := 100

  /** Whether a computation returns, or blocks forever. */
  datatype Completion<T> = Returns(value: T) | Blocks

  /** The collection loop of list.go as written: every fetched event is sent
      into a channel buffered to `EventBufferSize`, and nothing reads the
      channel until the sends are over, so a send into a full buffer never
      completes. */
  function BufferEvents(events: seq<ListEvent>, buffered: seq<ListEvent>): (c: Completion<seq<ListEvent>>)
    requires |buffered| <= EventBufferSize
    ensures c.Blocks? <==> |buffered| + |events| > EventBufferSize
    ensures c.Returns? ==> c.value == buffered + events
    decreases |events|
  {
    if |events| == 0 then
      assert buffered + events == buffered;
      Returns(buffered)
    else if |buffered| == EventBufferSize then Blocks
    else
      assert buffered + events == (buffered + [events[0]]) + events[1..];
      BufferEvents(events[1..], buffered + [events[0]])
  }

  /** `FetchPrivateLists` as written: the key checks, then the buffered
      collection. When it returns, it returns what `FetchPrivateLists` does;
      it blocks exactly when the keys are good and more than
      `EventBufferSize` events arrive. */
  function FetchPrivateListsAsWritten(npub: Option<(string, string)>, nsec: Option<(string, string)>,
                                      fetch: ListFilter -> seq<ListEvent>, crypto: ListCrypto)
    : (c: Completion<Result<seq<PrivateList>, ListError>>)
    ensures c.Returns? ==> c.value == FetchPrivateLists(npub, nsec, fetch, crypto)
    ensures c.Blocks? <==> (FetchPrivateLists(npub, nsec, fetch, crypto).Ok?
                            && |FetchedEvents(npub, fetch)| > EventBufferSize)
  {
    if npub.None? then Returns(Err(InvalidNpub))
    else if npub.value.0 != "npub" then Returns(Err(ExpectedNpubPrefix))
    else if nsec.None? then Returns(Err(InvalidNsec))
    else if nsec.value.0 != "nsec" then Returns(Err(ExpectedNsecPrefix))
    else
      var pubHex := npub.value.1;
      var privHex := nsec.value.1;
      match BufferEvents(fetch(ListFilter([PeopleListKind], [pubHex])), [])
      case Blocks => Blocks
      case Returns(events) => Returns(Ok(ProcessEvents(events, privHex, pubHex, crypto)))
  }

  /** 101 list events with pairwise distinct event ids (the i-th id is i+1
      copies of 'x'), so no de-duplication by id removes any of them. */
  function DistinctListEvents(): (events: seq<ListEvent>)
    ensures |events| == EventBufferSize + 1
    ensures forall i, j :: 0 <= i < j < |events| ==> events[i].id != events[j].id
  {
    seq(EventBufferSize + 1, (i: nat) => ListEvent(seq(i + 1, _ => 'x'), 0, [], ""))
  }

  /** An author whose relays hold 101 distinct list events: the collection
      never finishes, while `FetchPrivateLists` returns the processed lists. */
  lemma ManyListEventsBlock(crypto: ListCrypto)
    ensures var fetch := (f: ListFilter) => DistinctListEvents();
      && FetchPrivateListsAsWritten(Some(("npub", "ab")), Some(("nsec", "cd")), fetch, crypto) == Blocks
      && FetchPrivateLists(Some(("npub", "ab")), Some(("nsec", "cd")), fetch, crypto).Ok?
  {
  }
}
