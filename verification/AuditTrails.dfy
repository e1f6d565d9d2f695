/** The audit trail: content hashes, chain-bound hashes, verification, checkpoints and pruning. The hash function
    is a parameter, `sha`, of which only the format of its digests is known. Nothing is assumed about collisions:
    where a claim needs that there are none, the lemma produces the colliding pair. */
module AuditTrails {
  import opened Results
  import opened Values
  import opened CanonicalJson
  import opened DomainTags

  type Sha = string -> string

  predicate IsHexDigit(c: char) {
    IsDigit(c) || 'a' <= c <= 'f'
  }

  predicate IsDigest(s: string) {
    |s| == 64 && forall i :: 0 <= i < |s| ==> IsHexDigit(s[i])
  }

  ghost predicate GivesDigests(sha: Sha) {
    forall s :: IsDigest(sha(s))
  }

  /** `sha256:` and a digest. */
  function Prefixed(digest: string): string {
    "sha256:" + digest
  }

  predicate IsHash(s: string) {
    |s| == 71 && s[..7] == "sha256:" && IsDigest(s[7..])
  }

  /** The hash of the empty string. */
  function Genesis(sha: Sha): string {
    Prefixed(sha(""))
  }

  // ----- Content -----

  datatype EntryInput = EntryInput(
    entryId: string, timestamp: string, eventType: string, actorId: Option<string>, payload: Option<Json>)
  {
    predicate HasGoodPayload() {
      payload.Some? ==> WellFormed(payload.value)
    }
  }

  function ActorField(e: EntryInput): seq<(string, Json)> {
    if e.actorId.Some? then [("actor_id", JString(e.actorId.value))] else []
  }

  function PayloadField(e: EntryInput): seq<(string, Json)> {
    if e.payload.Some? then [("payload", e.payload.value)] else []
  }

  function HashedFields(e: EntryInput): seq<(string, Json)> {
    [("entry_id", JString(e.entryId)), ("timestamp", JString(e.timestamp)), ("event_type", JString(e.eventType))]
    + ActorField(e) + PayloadField(e)
  }

  /** `computeAuditEntryHash` */
  function ContentHash(sha: Sha, e: EntryInput, tag: string): string {
    Prefixed(sha(tag + Canonical(JObject(HashedFields(e)))))
  }

  // ----- What is hashed -----

  function Names(e: EntryInput): seq<string> {
    (if e.actorId.Some? then ["actor_id"] else []) + (["entry_id", "event_type"]
    + ((if e.payload.Some? then ["payload"] else []) + ["timestamp"]))
  }

  lemma NamesIncrease(e: EntryInput)
    ensures Increasing(Names(e))
  {
    assert "actor_id"[0] == 'a' && "entry_id"[0] == "event_type"[0] == 'e';
    assert "payload"[0] == 'p' && "timestamp"[0] == 't';
    assert StringLess("entry_id", "event_type") by {
      assert "entry_id"[1..][0] == 'n' && "event_type"[1..][0] == 'v';
    }
  }

  /** What stands in the hashed text under each name. */
  function Pieces(e: EntryInput): seq<string> {
    (if e.actorId.Some? then ["\"actor_id\":" + Quote(e.actorId.value)] else [])
    + (["\"entry_id\":" + Quote(e.entryId), "\"event_type\":" + Quote(e.eventType)]
    + ((if e.payload.Some? then ["\"payload\":" + Canonical(e.payload.value)] else [])
    + ["\"timestamp\":" + Quote(e.timestamp)]))
  }

  lemma NameIsQuoted(k: string)
    requires IsPlain(k)
    ensures Quote(k) + ":" == "\"" + k + "\":"
  {
    hide Quote, IsPlain;
    PlainIsQuoted(k);
    Assoc("\"" + k, "\"", ":");
    assert "\"" + ":" == "\":";
  }

  lemma SomeNames(e: EntryInput)
    ensures |Names(e)| > 0
  {
  }

  lemma PlainNames()
    ensures IsPlain("actor_id") && IsPlain("entry_id") && IsPlain("event_type")
    ensures IsPlain("payload") && IsPlain("timestamp")
  {
  }

  /** The same entry, up to the order of keys in the payload. */
  predicate SameContent(e: EntryInput, f: EntryInput) {
    && e.entryId == f.entryId && e.timestamp == f.timestamp && e.eventType == f.eventType
    && e.actorId == f.actorId
    && (e.payload.Some? <==> f.payload.Some?)
    && (e.payload.Some? ==> Equivalent(e.payload.value, f.payload.value))
  }

  lemma FieldsAreDistinct(e: EntryInput)
    requires e.HasGoodPayload()
    ensures WellFormed(JObject(HashedFields(e)))
  {
    var fs := HashedFields(e);
    assert forall i :: 0 <= i < |fs| ==> Keys(fs)[i] == fs[i].0;
    assert "actor_id" != "entry_id" && "actor_id" != "timestamp" && "actor_id" != "event_type" by {
      assert "actor_id"[0] == 'a' && "entry_id"[0] == 'e' && "timestamp"[0] == 't' && "event_type"[0] == 'e';
    }
    assert "payload"[0] == 'p' && "actor_id"[0] == 'a';
    assert "entry_id"[1] == 'n' && "event_type"[1] == 'v';
  }

  lemma {:induction false} LookupIs(fs: seq<(string, Json)>, i: nat)
    requires Distinct(Keys(fs)) && i < |fs|
    ensures fs[i].0 in Keys(fs) && Lookup(fs, fs[i].0) == fs[i].1
  {
    assert Keys(fs)[i] == fs[i].0;
    if i > 0 {
      assert Keys(fs)[0] != Keys(fs)[i];
      forall j, k | 0 <= j < k < |fs[1..]| ensures Keys(fs[1..])[j] != Keys(fs[1..])[k] {
        assert Keys(fs)[j + 1] != Keys(fs)[k + 1];
      }
      LookupIs(fs[1..], i - 1);
    }
  }

  lemma KeyFound(fs: seq<(string, Json)>, k: string) returns (i: nat)
    requires k in Keys(fs)
    ensures i < |fs| && fs[i].0 == k
  {
    i :| 0 <= i < |fs| && Keys(fs)[i] == k;
  }

  /** Hash inputs that are equal as JSON values come from the same content. */
  lemma FieldsDetermineContent(e: EntryInput, f: EntryInput)
    requires e.HasGoodPayload() && f.HasGoodPayload()
    requires Equivalent(JObject(HashedFields(e)), JObject(HashedFields(f)))
    ensures SameContent(e, f)
  {
    hide WellFormed;
    FieldsAreDistinct(e);
    FieldsAreDistinct(f);
    FieldAgrees(e, f, 0);
    FieldAgrees(e, f, 1);
    FieldAgrees(e, f, 2);
    OptionalAgrees(e, f);
  }

  /** A field that both entries have at known places. */
  lemma PairAgrees(e: EntryInput, f: EntryInput, i: nat, j: nat)
    requires e.HasGoodPayload() && f.HasGoodPayload()
    requires Equivalent(JObject(HashedFields(e)), JObject(HashedFields(f)))
    requires i < |HashedFields(e)| && j < |HashedFields(f)| && HashedFields(e)[i].0 == HashedFields(f)[j].0
    ensures Equivalent(HashedFields(e)[i].1, HashedFields(f)[j].1)
  {
    hide HashedFields;
    var fs, gs := HashedFields(e), HashedFields(f);
    FieldsAreDistinct(e);
    FieldsAreDistinct(f);
    LookupIs(fs, i);
    LookupIs(gs, j);
    assert SameAt(JObject(fs), fs, gs, fs[i].0);
  }

  lemma FieldAgrees(e: EntryInput, f: EntryInput, i: nat)
    requires e.HasGoodPayload() && f.HasGoodPayload()
    requires Equivalent(JObject(HashedFields(e)), JObject(HashedFields(f))) && i < 3
    ensures HashedFields(e)[i] == HashedFields(f)[i]
  {
    hide WellFormed, Equivalent;
    PairAgrees(e, f, i, i);
    StringsAgree(HashedFields(e)[i].1, HashedFields(f)[i].1);
  }

  lemma StringsAgree(v: Json, w: Json)
    requires v.JString? && Equivalent(v, w)
    ensures v == w
  {
  }

  /** Where a hash input has its optional fields. */
  lemma OptionalKeys(e: EntryInput, k: string)
    ensures k in Keys(HashedFields(e)) <==>
              || k == "entry_id" || k == "timestamp" || k == "event_type"
              || (k == "actor_id" && e.actorId.Some?) || (k == "payload" && e.payload.Some?)
  {
    var fs := HashedFields(e);
    assert fs[0].0 == "entry_id" && fs[1].0 == "timestamp" && fs[2].0 == "event_type";
    assert Keys(fs)[0] == fs[0].0 && Keys(fs)[1] == fs[1].0 && Keys(fs)[2] == fs[2].0;
    if e.actorId.Some? {
      assert fs[3] == ("actor_id", JString(e.actorId.value)) && Keys(fs)[3] == fs[3].0;
    }
    if e.payload.Some? {
      var n := |fs| - 1;
      assert fs[n] == ("payload", e.payload.value) && Keys(fs)[n] == fs[n].0;
    }
    if k in Keys(fs) {
      var i := KeyFound(fs, k);
    }
  }

  lemma OptionalAgrees(e: EntryInput, f: EntryInput)
    requires e.HasGoodPayload() && f.HasGoodPayload()
    requires Equivalent(JObject(HashedFields(e)), JObject(HashedFields(f)))
    ensures e.actorId == f.actorId && (e.payload.Some? <==> f.payload.Some?)
    ensures e.payload.Some? ==> Equivalent(e.payload.value, f.payload.value)
  {
    hide Equivalent;
    var fs, gs := HashedFields(e), HashedFields(f);
    SameKeys(fs, gs, "actor_id");
    SameKeys(fs, gs, "payload");
    NamesDiffer();
    OptionalKeys(e, "actor_id");
    OptionalKeys(f, "actor_id");
    OptionalKeys(e, "payload");
    OptionalKeys(f, "payload");
    if e.actorId.Some? {
      assert fs[3] == ("actor_id", JString(e.actorId.value)) && gs[3] == ("actor_id", JString(f.actorId.value));
      PairAgrees(e, f, 3, 3);
      StringsAgree(fs[3].1, gs[3].1);
    }
    if e.payload.Some? {
      assert fs[|fs| - 1] == ("payload", e.payload.value) && gs[|gs| - 1] == ("payload", f.payload.value);
      PairAgrees(e, f, |fs| - 1, |gs| - 1);
    }
  }

  lemma SameKeys(fs: seq<(string, Json)>, gs: seq<(string, Json)>, k: string)
    requires Equivalent(JObject(fs), JObject(gs))
    ensures k in Keys(fs) <==> k in Keys(gs)
  {
  }

  lemma NamesDiffer()
    ensures "actor_id" != "entry_id" && "actor_id" != "timestamp" && "actor_id" != "event_type"
    ensures "payload" != "entry_id" && "payload" != "timestamp" && "payload" != "event_type" && "payload" != "actor_id"
  {
    assert "actor_id"[0] == 'a' && "payload"[0] == 'p' && "entry_id"[0] == 'e' && "timestamp"[0] == 't'
        && "event_type"[0] == 'e';
  }

  lemma Looked(e: EntryInput, i: nat)
    requires e.HasGoodPayload() && i < |HashedFields(e)|
    ensures var fs := HashedFields(e); fs[i].0 in Keys(fs) && Lookup(fs, fs[i].0) == fs[i].1
  {
    hide HashedFields;
    FieldsAreDistinct(e);
    LookupIs(HashedFields(e), i);
  }

  /** What the hashed object holds under each name. */
  lemma ContentHeld(e: EntryInput)
    requires e.HasGoodPayload()
    ensures var fs := HashedFields(e);
            && "entry_id" in Keys(fs) && Lookup(fs, "entry_id") == JString(e.entryId)
            && "event_type" in Keys(fs) && Lookup(fs, "event_type") == JString(e.eventType)
            && "timestamp" in Keys(fs) && Lookup(fs, "timestamp") == JString(e.timestamp)
            && (e.actorId.Some? ==> "actor_id" in Keys(fs) && Lookup(fs, "actor_id") == JString(e.actorId.value))
            && (e.payload.Some? ==> "payload" in Keys(fs) && Lookup(fs, "payload") == e.payload.value)
  {
    hide Lookup;
    var fs := HashedFields(e);
    assert fs[0] == ("entry_id", JString(e.entryId)) && fs[1] == ("timestamp", JString(e.timestamp));
    assert fs[2] == ("event_type", JString(e.eventType));
    Looked(e, 0);
    Looked(e, 1);
    Looked(e, 2);
    if e.actorId.Some? {
      assert fs[3] == ("actor_id", JString(e.actorId.value));
      Looked(e, 3);
    }
    if e.payload.Some? {
      assert fs[|fs| - 1] == ("payload", e.payload.value);
      Looked(e, |fs| - 1);
    }
  }

  lemma NamesAreKeys(e: EntryInput)
    ensures forall k :: k in Names(e) <==> k in Keys(HashedFields(e))
  {
    hide HashedFields;
    forall k ensures k in Names(e) <==> k in Keys(HashedFields(e)) { OptionalKeys(e, k); }
  }

  lemma PieceIs(e: EntryInput, i: nat)
    requires e.HasGoodPayload() && i < |Names(e)|
    ensures |Pieces(e)| == |Names(e)| && Names(e)[i] in Keys(HashedFields(e))
    ensures Pieces(e)[i] == Quote(Names(e)[i]) + ":" + Canonical(Lookup(HashedFields(e), Names(e)[i]))
  {
    hide HashedFields, Quote, Lookup, IsPlain, WellFormed;
    ContentHeld(e);
    PlainNames();
    NameIsQuoted(Names(e)[i]);
    NameStarts();
  }

  lemma NameStarts()
    ensures "\"" + "actor_id" + "\":" == "\"actor_id\":" && "\"" + "entry_id" + "\":" == "\"entry_id\":"
    ensures "\"" + "event_type" + "\":" == "\"event_type\":" && "\"" + "payload" + "\":" == "\"payload\":"
    ensures "\"" + "timestamp" + "\":" == "\"timestamp\":"
  {
  }

  /** Two texts with a comma between them, and perhaps one before and one after, and a last one. */
  lemma JoinPieces(actor: seq<string>, id: string, event: string, payload: seq<string>, time: string)
    requires |actor| <= 1 && |payload| <= 1
    ensures Join(actor + ([id, event] + (payload + [time])), ",") ==
            (if actor != [] then actor[0] + "," else "") + (id + ("," + (event
            + ((if payload != [] then "," + payload[0] else "") + ("," + time)))))
  {
    hide Join;
    var rest := payload + [time];
    JoinCons(time, [], ",");
    if payload != [] {
      JoinCons(payload[0], [time], ",");
      assert payload == [payload[0]];
      Assoc(",", payload[0], "," + time);
      Assoc(payload[0], ",", time);
    } else {
      assert rest == [time];
      assert "" + ("," + time) == "," + time;
    }
    assert "," + Join(rest, ",") == (if payload != [] then "," + payload[0] else "") + ("," + time);
    JoinCons(event, rest, ",");
    Assoc(event, ",", Join(rest, ","));
    JoinCons(id, [event] + rest, ",");
    Assoc(id, ",", Join([event] + rest, ","));
    assert [id, event] + rest == [id] + ([event] + rest);
    var both := Join([id, event] + rest, ",");
    if actor != [] {
      JoinCons(actor[0], [id, event] + rest, ",");
      assert actor == [actor[0]];
    } else {
      assert actor + ([id, event] + rest) == [id, event] + rest;
      assert "" + both == both;
    }
  }

  lemma PiecesJoin(e: EntryInput)
    ensures Join(Pieces(e), ",") ==
            (if e.actorId.Some? then "\"actor_id\":" + Quote(e.actorId.value) + "," else "")
            + ("\"entry_id\":" + Quote(e.entryId) + ("," + ("\"event_type\":" + Quote(e.eventType)
            + ((if e.payload.Some? then "," + ("\"payload\":" + Canonical(e.payload.value)) else "")
            + ("," + ("\"timestamp\":" + Quote(e.timestamp)))))))
  {
    hide Quote, Canonical, Join;
    JoinPieces(if e.actorId.Some? then ["\"actor_id\":" + Quote(e.actorId.value)] else [],
               "\"entry_id\":" + Quote(e.entryId), "\"event_type\":" + Quote(e.eventType),
               if e.payload.Some? then ["\"payload\":" + Canonical(e.payload.value)] else [],
               "\"timestamp\":" + Quote(e.timestamp));
  }

  /** What is hashed, to the letter: behind the tag, an object that holds each field under its own name, names in
      increasing order, without the fields that are missing. */
  lemma ContentHashText(sha: Sha, e: EntryInput, tag: string)
    requires e.HasGoodPayload()
    ensures ContentHash(sha, e, tag) == "sha256:" + sha(tag + ("{" + (
              (if e.actorId.Some? then "\"actor_id\":" + Quote(e.actorId.value) + "," else "")
              + ("\"entry_id\":" + Quote(e.entryId) + ("," + ("\"event_type\":" + Quote(e.eventType)
              + ((if e.payload.Some? then "," + ("\"payload\":" + Canonical(e.payload.value)) else "")
              + ("," + ("\"timestamp\":" + Quote(e.timestamp)))))))) + "}"))
  {
    hide HashedFields, Quote, Canonical, Join, Pieces, Names, Increasing, Lookup;
    FieldsAreDistinct(e);
    NamesIncrease(e);
    NamesAreKeys(e);
    SomeNames(e);
    PieceIs(e, 0);
    forall i | 0 <= i < |Names(e)|
      ensures Pieces(e)[i] == Quote(Names(e)[i]) + ":" + Canonical(Lookup(HashedFields(e), Names(e)[i]))
    {
      PieceIs(e, i);
    }
    ObjectText(HashedFields(e), Names(e), Pieces(e));
    PiecesJoin(e);
  }

  // ----- Chain-bound hashes -----

  datatype ChainError = InvalidDomainTag | InvalidPreviousHash

  /** `computeChainBoundHash` */
  function ChainBoundHash(sha: Sha, e: EntryInput, tag: string, previousHash: string): Result<string, ChainError> {
    if !IsTag(tag) then Failure(InvalidDomainTag)
    else if !IsHash(previousHash) then Failure(InvalidPreviousHash)
    else Success(Prefixed(sha(ContentHash(sha, e, tag) + ":" + previousHash)))
  }

  /** A link hashes the entry's own hash, a colon and the hash before it; a history starts from the hash of nothing. */
  lemma LinkText(sha: Sha, e: EntryInput, tag: string, previousHash: string)
    ensures Genesis(sha) == "sha256:" + sha("")
    ensures IsTag(tag) && IsHash(previousHash) ==>
              ChainBoundHash(sha, e, tag, previousHash)
              == Success("sha256:" + sha(ContentHash(sha, e, tag) + ":" + previousHash))
    ensures !IsTag(tag) ==> ChainBoundHash(sha, e, tag, previousHash) == Failure(InvalidDomainTag)
    ensures IsTag(tag) && !IsHash(previousHash) ==>
              ChainBoundHash(sha, e, tag, previousHash) == Failure(InvalidPreviousHash)
  {
    hide IsTag, IsHash, ContentHash;
  }

  /** A hash is `sha256:` and 64 hexadecimal digits in lower case. */
  lemma HashesAre(s: string)
    ensures IsHash(s) <==>
              && |s| == 7 + 64 && s[..7] == "sha256:"
              && forall i :: 7 <= i < |s| ==> '0' <= s[i] <= '9' || 'a' <= s[i] <= 'f'
  {
    if |s| == 71 {
      assert forall i :: 7 <= i < |s| ==> s[7..][i - 7] == s[i];
    }
  }

  type History = seq<(EntryInput, string)>

  /** The hash at the end of a history of tagged entries, starting from the genesis hash. */
  function ChainHash(sha: Sha, history: History): Result<string, ChainError> {
    if history == [] then Success(Genesis(sha))
    else
      var n := |history| - 1;
      var previous :- ChainHash(sha, history[..n]);
      ChainBoundHash(sha, history[n].0, history[n].1, previous)
  }

  predicate SameHistory(h: History, g: History) {
    |h| == |g| && forall i :: 0 <= i < |h| ==> h[i].1 == g[i].1 && SameContent(h[i].0, g[i].0)
  }

  predicate GoodPayloads(h: History) {
    forall i :: 0 <= i < |h| ==> h[i].0.HasGoodPayload()
  }

  lemma PrefixedIsHash(sha: Sha, s: string)
    requires GivesDigests(sha)
    ensures IsHash(Prefixed(sha(s)))
  {
    assert IsDigest(sha(s));
    assert Prefixed(sha(s))[7..] == sha(s) && Prefixed(sha(s))[..7] == "sha256:";
  }

  lemma PrefixedInjective(a: string, b: string)
    requires Prefixed(a) == Prefixed(b)
    ensures a == b
  {
    assert Prefixed(a)[7..] == a && Prefixed(b)[7..] == b;
  }

  /** Folding fails for a bad tag only: every hash it produces is a good previous hash. */
  lemma {:induction false} ChainHashIsHash(sha: Sha, history: History)
    requires GivesDigests(sha)
    ensures ChainHash(sha, history).Success? <==> forall i :: 0 <= i < |history| ==> IsTag(history[i].1)
    ensures ChainHash(sha, history).Success? ==> IsHash(ChainHash(sha, history).value)
  {
    hide IsTag, IsHash, Prefixed, GivesDigests, Canonical;
    if history == [] {
      PrefixedIsHash(sha, "");
    } else {
      var n := |history| - 1;
      ChainHashIsHash(sha, history[..n]);
      var previous := ChainHash(sha, history[..n]);
      if previous.Success? {
        PrefixedIsHash(sha, ContentHash(sha, history[n].0, history[n].1) + ":" + previous.value);
      }
    }
  }

  /** Tag and content can be told apart in the hashed text. */
  lemma TagSplits(t: string, u: string, e: EntryInput, f: EntryInput)
    requires IsTag(t) && IsTag(u) && e.HasGoodPayload() && f.HasGoodPayload()
    requires t + Canonical(JObject(HashedFields(e))) == u + Canonical(JObject(HashedFields(f)))
    ensures t == u && SameContent(e, f)
  {
    hide IsSegment, HashedFields, SameContent;
    var c, d := Canonical(JObject(HashedFields(e))), Canonical(JObject(HashedFields(f)));
    FieldsAreDistinct(e);
    FieldsAreDistinct(f);
    StartsAs(JObject(HashedFields(e)), "");
    StartsAs(JObject(HashedFields(f)), "");
    assert c + "" == c && d + "" == d;
    if |t| < |u| {
      assert (t + c)[|t|] == c[0] && (u + d)[|t|] == u[|t|];
      BraceFree(u, |t|);
    } else if |u| < |t| {
      assert (t + c)[|u|] == t[|u|] && (u + d)[|u|] == d[0];
      BraceFree(t, |u|);
    }
    assert |t| == |u|;
    assert t == (t + c)[..|t|] && u == (u + d)[..|t|];
    Cancel(t, c, d);
    CanonicalIsCanonical(JObject(HashedFields(e)), JObject(HashedFields(f)));
    FieldsDetermineContent(e, f);
  }

  lemma BraceFree(t: string, i: nat)
    requires IsTag(t) && i < |t|
    ensures t[i] != '{'
  {
    TagHasNoBrace(t, i);
  }

  datatype Collision = Collision(x: string, y: string)

  ghost predicate Collides(sha: Sha, c: Collision) {
    c.x != c.y && sha(c.x) == sha(c.y)
  }

  /** Two hashed links that agree come from the same content and the same previous hash, or show a collision. */
  lemma LinkBinds(sha: Sha, e: EntryInput, t: string, p: string, f: EntryInput, u: string, q: string)
    returns (found: Option<Collision>)
    requires GivesDigests(sha) && IsTag(t) && IsTag(u) && e.HasGoodPayload() && f.HasGoodPayload()
    requires sha(ContentHash(sha, e, t) + ":" + p) == sha(ContentHash(sha, f, u) + ":" + q)
    ensures found == None ==> t == u && SameContent(e, f) && p == q
    ensures found.Some? ==> Collides(sha, found.value)
  {
    hide Canonical, HashedFields, IsTag, SameContent, Prefixed;
    var a, b := ContentHash(sha, e, t), ContentHash(sha, f, u);
    var x, y := t + Canonical(JObject(HashedFields(e))), u + Canonical(JObject(HashedFields(f)));
    if a + ":" + p != b + ":" + q {
      return Some(Collision(a + ":" + p, b + ":" + q));
    }
    PrefixedIsHash(sha, x);
    PrefixedIsHash(sha, y);
    FramingSplits(a, p, b, q);
    PrefixedInjective(sha(x), sha(y));
    if x != y {
      return Some(Collision(x, y));
    }
    TagSplits(t, u, e, f);
    return None;
  }

  lemma FramingSplits(a: string, p: string, b: string, q: string)
    requires |a| == 71 && |b| == 71 && a + ":" + p == b + ":" + q
    ensures a == b && p == q
  {
    assert a == (a + ":" + p)[..71] && b == (b + ":" + q)[..71];
    assert p == (a + ":" + p)[72..] && q == (b + ":" + q)[72..];
  }

  /** The last link of a chain. */
  lemma LastLink(sha: Sha, h: History)
    requires h != [] && ChainHash(sha, h).Success?
    ensures var n := |h| - 1;
            && IsTag(h[n].1) && ChainHash(sha, h[..n]).Success?
            && ChainHash(sha, h).value
               == Prefixed(sha(ContentHash(sha, h[n].0, h[n].1) + ":" + ChainHash(sha, h[..n]).value))
  {
    hide ContentHash, IsTag, Prefixed, IsHash;
  }

  lemma EmptyChain(sha: Sha, h: History)
    requires h == []
    ensures ChainHash(sha, h) == Success(Prefixed(sha("")))
  {
  }

  /** A chain-bound hash binds the whole history: two histories of any lengths with the same final hash are the
      same, up to the order of keys in payloads, or two different texts with the same digest are at hand. */
  lemma {:induction false} HistoryIsBound(sha: Sha, h: History, g: History) returns (found: Option<Collision>)
    requires GivesDigests(sha) && GoodPayloads(h) && GoodPayloads(g)
    requires ChainHash(sha, h).Success? && ChainHash(sha, g) == ChainHash(sha, h)
    ensures found == None ==> SameHistory(h, g)
    ensures found.Some? ==> Collides(sha, found.value)
  {
    hide ContentHash, IsTag, SameContent, Prefixed, IsHash, ChainHash;
    if h == [] && g == [] {
      return None;
    }
    if h == [] || g == [] {
      var k := if h == [] then g else h;
      var n := |k| - 1;
      EmptyChain(sha, []);
      LastLink(sha, k);
      var link := ContentHash(sha, k[n].0, k[n].1) + ":" + ChainHash(sha, k[..n]).value;
      PrefixedInjective(sha(""), sha(link));
      assert link != "";
      return Some(Collision("", link));
    }
    LastLink(sha, h);
    LastLink(sha, g);
    var n, m := |h| - 1, |g| - 1;
    var p, q := ChainHash(sha, h[..n]).value, ChainHash(sha, g[..m]).value;
    PrefixedInjective(sha(ContentHash(sha, h[n].0, h[n].1) + ":" + p), sha(ContentHash(sha, g[m].0, g[m].1) + ":" + q));
    found := LinkBinds(sha, h[n].0, h[n].1, p, g[m].0, g[m].1, q);
    if found == None {
      found := HistoryIsBound(sha, h[..n], g[..m]);
    }
  }

  /** The other direction: the same content hashes the same, whatever the order of keys in the payload. */
  lemma SameContentHashesSame(sha: Sha, e: EntryInput, f: EntryInput, tag: string)
    requires SameContent(e, f) && e.HasGoodPayload() && f.HasGoodPayload()
    ensures ContentHash(sha, e, tag) == ContentHash(sha, f, tag)
  {
    hide Canonical;
    var fs, gs := HashedFields(e), HashedFields(f);
    FieldsAreDistinct(e);
    FieldsAreDistinct(f);
    forall k ensures k in Keys(fs) <==> k in Keys(gs) {
      OptionalKeys(e, k);
      OptionalKeys(f, k);
    }
    forall k | k in Keys(fs) ensures SameAt(JObject(fs), fs, gs, k) {
      var i := KeyFound(fs, k);
      LookupIs(fs, i);
      LookupIs(gs, i);
      assert gs[i].0 == k;
    }
    CanonicalIsCanonical(JObject(fs), JObject(gs));
  }

  lemma {:induction false} SameHistoryHashesSame(sha: Sha, h: History, g: History)
    requires SameHistory(h, g) && GoodPayloads(h) && GoodPayloads(g)
    ensures ChainHash(sha, h) == ChainHash(sha, g)
  {
    hide ContentHash, SameContent, IsTag, IsHash, Prefixed;
    if h != [] {
      var n := |h| - 1;
      SameHistoryHashesSame(sha, h[..n], g[..n]);
      SameContentHashesSame(sha, h[n].0, g[n].0, h[n].1);
    }
  }
}
