/**
 * The document an agreement is stored as. Four fields stay outside its hash: the hash
 * itself and the three that later events may change.
 */
module AgreementDocument {
  import opened Basics
  import opened Sorting
  import opened JsonText
  import opened CanonicalJson
  import opened CanonicalJsonFacts

  /** A stored JSON object, its properties in whatever order the database returns them. */
  type Document = seq<Entry>

  /** The hash as a function on texts. */
  type Hash = Text -> Text

  ghost predicate Injective(hash: Hash) {
    forall a, b :: hash(a) == hash(b) ==> a == b
  }

  const FINGERPRINT := Unicode("snapshotFingerprint")
  const STATUS := Unicode("status")
  const REVERSAL := Unicode("reversal")
  const REPLACED_BY := Unicode("replacedBy")

  /** Fields outside the hash. */
  predicate IsLive(key: Text) {
    key == FINGERPRINT || key == STATUS || key == REVERSAL || key == REPLACED_BY
  }

  function Digest(content: seq<Entry>, hash: Hash): Option<Text> {
    match Serialize(Object(content))
    case Ok(text) => Some(hash(text))
    case Err(_) => None
  }

  /** The document as created, or nothing when the content cannot be serialized. */
  function BuildDocument(content: seq<Entry>, hash: Hash): Option<Document> {
    match Digest(content, hash)
    case Some(h) =>
      Some(content + [Entry(FINGERPRINT, String(h)), Entry(STATUS, String(Unicode("active"))), Entry(REVERSAL, Null), Entry(REPLACED_BY, Null)])
    case None => None
  }

  function Show(e: Entry, status: Value, reversal: Value, replacedBy: Value): Entry {
    if e.key == STATUS then Entry(e.key, status)
    else if e.key == REVERSAL then Entry(e.key, reversal)
    else if e.key == REPLACED_BY then Entry(e.key, replacedBy)
    else e
  }

  /** The live lifecycle facts laid over a stored document. */
  function Overlay(doc: Document, status: Value, reversal: Value, replacedBy: Value): (r: Document)
    ensures |r| == |doc|
  {
    if doc == [] then [] else [Show(doc[0], status, reversal, replacedBy)] + Overlay(doc[1..], status, reversal, replacedBy)
  }

  /** The detail of an agreement: voided once it has a reversal, with the replacement it has by now, if any. */
  function LiveDocument(doc: Document, reversal: Option<Value>, replacedBy: Option<Value>): Document {
    Overlay(doc, String(Unicode(if reversal.Some? then "voided" else "active")),
            if reversal.Some? then reversal.value else Null, if replacedBy.Some? then replacedBy.value else Null)
  }

  function ContentOf(doc: Document): seq<Entry> {
    if doc == [] then []
    else if IsLive(doc[0].key) then ContentOf(doc[1..])
    else [doc[0]] + ContentOf(doc[1..])
  }

  function Lookup(doc: Document, key: Text): Option<Value> {
    if doc == [] then None
    else if doc[0].key == key then Some(doc[0].value)
    else Lookup(doc[1..], key)
  }

  /** The check a reader makes: hash what is hashed again and compare. */
  predicate Verify(doc: Document, hash: Hash) {
    var h := Digest(ContentOf(doc), hash);
    h.Some? && Lookup(doc, FINGERPRINT) == Some(String(h.value))
  }

  // ----- what the fingerprint protects ---------------------------------------------------------

  ghost predicate ProperContent(content: seq<Entry>) {
    && Proper(Object(content)) && Accepted(Object(content))
    && forall i :: 0 <= i < |content| ==> !IsLive(content[i].key)
  }

  lemma LiveKeysDiffer()
    ensures |FINGERPRINT| == 19 && |STATUS| == 6 && |REVERSAL| == 8 && |REPLACED_BY| == 10
  {
  }

  lemma {:induction false} ContentOfAppend(a: Document, b: Document)
    ensures ContentOf(a + b) == ContentOf(a) + ContentOf(b)
  {
    if a == [] {
      assert a + b == b;
    } else {
      ContentOfAppend(a[1..], b);
      assert (a + b)[1..] == a[1..] + b;
    }
  }

  lemma {:induction false} PlainContent(content: seq<Entry>)
    requires forall i :: 0 <= i < |content| ==> !IsLive(content[i].key)
    ensures ContentOf(content) == content && Lookup(content, FINGERPRINT) == None
  {
    if content != [] {
      PlainContent(content[1..]);
      assert content == [content[0]] + content[1..];
    }
  }

  lemma {:induction false} LookupAppend(a: Document, b: Document, key: Text)
    requires Lookup(a, key) == None
    ensures Lookup(a + b, key) == Lookup(b, key)
  {
    if a == [] {
      assert a + b == b;
    } else {
      LookupAppend(a[1..], b, key);
      assert (a + b)[1..] == a[1..] + b;
    }
  }

  lemma {:induction false} OverlayAt(doc: Document, status: Value, reversal: Value, replacedBy: Value, i: nat)
    requires i < |doc|
    ensures Overlay(doc, status, reversal, replacedBy)[i] == Show(doc[i], status, reversal, replacedBy)
  {
    hide Show;
    if i > 0 {
      OverlayAt(doc[1..], status, reversal, replacedBy, i - 1);
      assert Overlay(doc, status, reversal, replacedBy)[i] == Overlay(doc[1..], status, reversal, replacedBy)[i - 1];
    }
  }

  /** Each live field is shown with its own current value; everything else, the fingerprint included, is shown as stored. */
  lemma OverlayShows(doc: Document, status: Value, reversal: Value, replacedBy: Value, i: nat)
    requires i < |doc|
    ensures var e, shown := doc[i], Overlay(doc, status, reversal, replacedBy)[i];
            && shown.key == e.key
            && (e.key == Unicode("status") ==> shown.value == status)
            && (e.key == Unicode("reversal") ==> shown.value == reversal)
            && (e.key == Unicode("replacedBy") ==> shown.value == replacedBy)
            && (e.key != Unicode("status") && e.key != Unicode("reversal") && e.key != Unicode("replacedBy") ==> shown == e)
  {
    hide Overlay, Unicode;
    LiveKeysDiffer();
    OverlayAt(doc, status, reversal, replacedBy, i);
  }

  lemma {:induction false} OverlayKeepsContent(doc: Document, status: Value, reversal: Value, replacedBy: Value)
    ensures ContentOf(Overlay(doc, status, reversal, replacedBy)) == ContentOf(doc)
    ensures Lookup(Overlay(doc, status, reversal, replacedBy), FINGERPRINT) == Lookup(doc, FINGERPRINT)
    ensures forall i :: 0 <= i < |doc| ==> Overlay(doc, status, reversal, replacedBy)[i].key == doc[i].key
  {
    if doc != [] {
      OverlayKeepsContent(doc[1..], status, reversal, replacedBy);
      LiveKeysDiffer();
      var over := Overlay(doc, status, reversal, replacedBy);
      assert over[1..] == Overlay(doc[1..], status, reversal, replacedBy) && over[0].key == doc[0].key;
      assert IsLive(doc[0].key) || over[0] == doc[0];
      assert doc[0].key == FINGERPRINT ==> over[0] == doc[0];
      hide Overlay, IsLive;
      assert forall i :: 1 <= i < |doc| ==> over[i] == over[1..][i - 1] && doc[i] == doc[1..][i - 1];
    }
  }

  /** What is hashed: every entry except the four of these names. */
  lemma {:induction false} HashedPart(doc: Document, e: Entry)
    ensures e in ContentOf(doc) <==>
              e in doc && e.key != Unicode("snapshotFingerprint") && e.key != Unicode("status")
              && e.key != Unicode("reversal") && e.key != Unicode("replacedBy")
  {
    if doc != [] {
      HashedPart(doc[1..], e);
      assert doc == [doc[0]] + doc[1..];
    }
  }

  lemma {:induction false} ContentMember(doc: Document, e: Entry)
    ensures e in ContentOf(doc) ==> e in doc
  {
    if doc != [] {
      ContentMember(doc[1..], e);
      assert doc == [doc[0]] + doc[1..];
    }
  }

  lemma {:induction false} ContentDistinct(doc: Document)
    requires DistinctEntries(doc)
    ensures DistinctEntries(ContentOf(doc))
  {
    if doc != [] {
      var rest := ContentOf(doc[1..]);
      ContentDistinct(doc[1..]);
      forall j | 0 <= j < |rest| ensures rest[j].key != doc[0].key {
        ContentMember(doc[1..], rest[j]);
        var k :| 0 <= k < |doc[1..]| && doc[1..][k] == rest[j];
        assert doc[k + 1] == rest[j];
      }
    }
  }

  lemma {:induction false} LookupFinds(doc: Document, e: Entry)
    requires DistinctEntries(doc) && e in doc
    ensures Lookup(doc, e.key) == Some(e.value)
  {
    if doc[0] != e {
      assert doc == [doc[0]] + doc[1..];
      var i :| 0 <= i < |doc| && doc[i] == e;
      assert doc[0].key != doc[i].key && doc[1..][i - 1] == e;
      LookupFinds(doc[1..], e);
    }
  }

  lemma {:induction false} LookupIsThere(doc: Document, key: Text)
    requires Lookup(doc, key).Some?
    ensures Entry(key, Lookup(doc, key).value) in doc
  {
    if doc[0].key != key { LookupIsThere(doc[1..], key); }
  }

  /** A document verifies exactly when its content is, up to key order, the content that was hashed. */
  lemma VerifiesExactlyItsContent(content: seq<Entry>, doc: Document, hash: Hash)
    requires ProperContent(content) && Injective(hash)
    requires Proper(Object(ContentOf(doc)))
    requires BuildDocument(content, hash).Some?
    requires Lookup(doc, FINGERPRINT) == Lookup(BuildDocument(content, hash).value, FINGERPRINT)
    ensures Verify(doc, hash) <==> Accepted(Object(ContentOf(doc))) && Same(Object(content), Object(ContentOf(doc)))
  {
    FingerprintOfBuilt(content, hash);
    SerializeIsEmit(Object(content));
    SerializeIsEmit(Object(ContentOf(doc)));
    if Accepted(Object(ContentOf(doc))) {
      PrintsAlikeExactlyWhenSame(Object(content), Object(ContentOf(doc)));
    }
  }

  lemma FingerprintOfBuilt(content: seq<Entry>, hash: Hash)
    requires ProperContent(content)
    ensures BuildDocument(content, hash).Some? && Digest(content, hash).Some?
    ensures var doc := BuildDocument(content, hash).value;
            Lookup(doc, FINGERPRINT) == Some(String(Digest(content, hash).value)) && ContentOf(doc) == content
  {
    SerializeIsEmit(Object(content));
    var live := [Entry(FINGERPRINT, String(Digest(content, hash).value)), Entry(STATUS, String(Unicode("active"))), Entry(REVERSAL, Null), Entry(REPLACED_BY, Null)];
    PlainContent(content);
    ContentOfAppend(content, live);
    LookupAppend(content, live, FINGERPRINT);
    assert ContentOf(live[3..]) == [] && ContentOf(live[2..]) == [] by { assert live[2..][1..] == live[3..]; }
    assert ContentOf(live[1..]) == [] by { assert live[1..][1..] == live[2..]; }
    assert ContentOf(live) == [];
  }

  /** A new document: its content, the digest of that content, and a live part that is active, not reversed and not replaced. */
  lemma BuiltIsActive(content: seq<Entry>, hash: Hash)
    requires ProperContent(content)
    ensures BuildDocument(content, hash).Some? && Serialize(Object(content)).Ok?
    ensures var doc := BuildDocument(content, hash).value;
            && |doc| == |content| + 4 && doc[..|content|] == content
            && Lookup(doc, Unicode("snapshotFingerprint")) == Some(String(hash(Serialize(Object(content)).value)))
            && Lookup(doc, Unicode("status")) == Some(String(Unicode("active")))
            && Lookup(doc, Unicode("reversal")) == Some(Null) && Lookup(doc, Unicode("replacedBy")) == Some(Null)
  {
    SerializeIsEmit(Object(content));
    LiveKeysDiffer();
    var doc := BuildDocument(content, hash).value;
    var live := doc[|content|..];
    assert doc == content + live;
    NotInContent(content, FINGERPRINT);
    NotInContent(content, STATUS);
    NotInContent(content, REVERSAL);
    NotInContent(content, REPLACED_BY);
    LookupAppend(content, live, FINGERPRINT);
    LookupAppend(content, live, STATUS);
    LookupAppend(content, live, REVERSAL);
    LookupAppend(content, live, REPLACED_BY);
    LookupFour(live[0], live[1], live[2], live[3]);
    assert live == [live[0], live[1], live[2], live[3]];
  }

  /** The detail entry by entry: the content and its digest as created, then the live facts. */
  lemma DetailIs(content: seq<Entry>, hash: Hash, reversal: Option<Value>, replacedBy: Option<Value>)
    requires ProperContent(content)
    ensures BuildDocument(content, hash).Some? && Serialize(Object(content)).Ok?
    ensures LiveDocument(BuildDocument(content, hash).value, reversal, replacedBy)
         == content + [Entry(Unicode("snapshotFingerprint"), String(hash(Serialize(Object(content)).value))),
                       Entry(Unicode("status"), String(Unicode(if reversal == None then "active" else "voided"))),
                       Entry(Unicode("reversal"), if reversal == None then Null else reversal.value),
                       Entry(Unicode("replacedBy"), if replacedBy == None then Null else replacedBy.value)]
  {
    SerializeIsEmit(Object(content));
    hide Serialize, IsLive, Overlay, Accepted, Proper, Unicode;
    var doc := BuildDocument(content, hash).value;
    var status := String(Unicode(if reversal.Some? then "voided" else "active"));
    var gone, next := if reversal.Some? then reversal.value else Null, if replacedBy.Some? then replacedBy.value else Null;
    var live := [Entry(FINGERPRINT, String(hash(Serialize(Object(content)).value))), Entry(STATUS, String(Unicode("active"))), Entry(REVERSAL, Null), Entry(REPLACED_BY, Null)];
    assert doc == content + live;
    OverlayAppend(content, live, status, gone, next);
    PlainOverlay(content, status, gone, next);
    OverlayFour(live[0], live[1], live[2], live[3], status, gone, next);
    assert live == [live[0], live[1], live[2], live[3]];
  }

  lemma OverlayAppend(a: Document, b: Document, status: Value, reversal: Value, replacedBy: Value)
    ensures Overlay(a + b, status, reversal, replacedBy) == Overlay(a, status, reversal, replacedBy) + Overlay(b, status, reversal, replacedBy)
  {
    hide Overlay, Show;
    var whole := a + b;
    var l, r := Overlay(whole, status, reversal, replacedBy), Overlay(a, status, reversal, replacedBy) + Overlay(b, status, reversal, replacedBy);
    forall i: nat | i < |whole| ensures l[i] == r[i] {
      OverlayAt(whole, status, reversal, replacedBy, i);
      if i < |a| { OverlayAt(a, status, reversal, replacedBy, i); } else { OverlayAt(b, status, reversal, replacedBy, i - |a|); }
    }
  }

  lemma {:induction false} PlainOverlay(content: seq<Entry>, status: Value, reversal: Value, replacedBy: Value)
    requires forall i :: 0 <= i < |content| ==> !IsLive(content[i].key)
    ensures Overlay(content, status, reversal, replacedBy) == content
  {
    if content != [] {
      PlainOverlay(content[1..], status, reversal, replacedBy);
      assert content == [content[0]] + content[1..];
    }
  }

  lemma OverlayFour(a: Entry, b: Entry, c: Entry, d: Entry, status: Value, reversal: Value, replacedBy: Value)
    requires a.key == FINGERPRINT && b.key == STATUS && c.key == REVERSAL && d.key == REPLACED_BY
    ensures Overlay([a, b, c, d], status, reversal, replacedBy)
         == [a, Entry(STATUS, status), Entry(REVERSAL, reversal), Entry(REPLACED_BY, replacedBy)]
  {
    LiveKeysDiffer();
    assert [a, b, c, d][1..] == [b, c, d] && [b, c, d][1..] == [c, d] && [c, d][1..] == [d] && [d][1..] == [];
    assert Overlay([], status, reversal, replacedBy) == [];
    assert Overlay([d], status, reversal, replacedBy) == [Entry(REPLACED_BY, replacedBy)];
    assert Overlay([c, d], status, reversal, replacedBy) == [Entry(REVERSAL, reversal), Entry(REPLACED_BY, replacedBy)];
  }

  lemma LookupFour(a: Entry, b: Entry, c: Entry, d: Entry)
    requires a.key == FINGERPRINT && b.key == STATUS && c.key == REVERSAL && d.key == REPLACED_BY
    ensures var live := [a, b, c, d];
            && Lookup(live, FINGERPRINT) == Some(a.value) && Lookup(live, STATUS) == Some(b.value)
            && Lookup(live, REVERSAL) == Some(c.value) && Lookup(live, REPLACED_BY) == Some(d.value)
  {
    LiveKeysDiffer();
    var live := [a, b, c, d];
    assert live[1..] == [b, c, d] && [b, c, d][1..] == [c, d] && [c, d][1..] == [d];
    assert Lookup([d], REPLACED_BY) == Some(d.value);
    assert Lookup([c, d], REPLACED_BY) == Some(d.value) && Lookup([c, d], REVERSAL) == Some(c.value);
    assert Lookup([b, c, d], REPLACED_BY) == Some(d.value) && Lookup([b, c, d], REVERSAL) == Some(c.value);
  }

  lemma {:induction false} NotInContent(content: seq<Entry>, key: Text)
    requires IsLive(key) && forall i :: 0 <= i < |content| ==> !IsLive(content[i].key)
    ensures Lookup(content, key) == None
  {
    if content != [] { NotInContent(content[1..], key); }
  }

  lemma {:induction false} ContentKeys(doc: Document, key: Text)
    ensures HasKey(ContentOf(doc), key) <==> HasKey(doc, key) && !IsLive(key)
  {
    if doc != [] {
      var rest, content := doc[1..], ContentOf(doc);
      ContentKeys(rest, key);
      assert doc == [doc[0]] + rest;
      KeyInFront(doc[0], rest, key);
      if !IsLive(doc[0].key) { KeyInFront(doc[0], ContentOf(rest), key); }
    }
  }

  lemma KeyInFront(e: Entry, es: seq<Entry>, key: Text)
    ensures HasKey([e] + es, key) <==> e.key == key || HasKey(es, key)
  {
    var all := [e] + es;
    if e.key == key { assert all[0].key == key; }
    if i :| 0 <= i < |es| && es[i].key == key { assert all[i + 1].key == key; }
  }

  /** What holds of whole objects holds of their hashed parts. */
  lemma SameContent(es: Document, fs: Document)
    requires Same(Object(es), Object(fs))
    ensures Same(Object(ContentOf(es)), Object(ContentOf(fs)))
  {
    var a, b := ContentOf(es), ContentOf(fs);
    forall i | 0 <= i < |a| ensures HasKey(b, a[i].key) {
      assert HasKey(a, a[i].key);
      ContentKeys(es, a[i].key);
      ContentKeys(fs, a[i].key);
    }
    forall j | 0 <= j < |b| ensures HasKey(a, b[j].key) {
      assert HasKey(b, b[j].key);
      ContentKeys(es, b[j].key);
      ContentKeys(fs, b[j].key);
    }
    forall i, j | 0 <= i < |a| && 0 <= j < |b| && a[i].key == b[j].key ensures Same(a[i].value, b[j].value) {
      ContentMember(es, a[i]);
      ContentMember(fs, b[j]);
    }
  }

  /** Reordering keys refuses nothing new. */
  lemma {:induction false} SameAccepted(v: Value, w: Value)
    requires Same(v, w) && Accepted(v)
    ensures Accepted(w)
    decreases v
  {
    match (v, w)
    case (Array(xs), Array(ys)) =>
      if !Empty(xs) {
        forall i | 0 <= i < |ys| && ys[i].Of? ensures Accepted(ys[i].value) { SameAccepted(xs[i].value, ys[i].value); }
      }
    case (Object(es), Object(fs)) =>
      forall j | 0 <= j < |fs| ensures Accepted(fs[j].value) {
        assert HasKey(es, fs[j].key);
        var i :| 0 <= i < |es| && es[i].key == fs[j].key;
        SameAccepted(es[i].value, fs[j].value);
      }
    case _ =>
  }

  /** A field that holds a string holds it after any reordering. */
  lemma SameText(es: Document, fs: Document, key: Text, s: Text)
    requires Same(Object(es), Object(fs)) && DistinctEntries(fs) && Lookup(es, key) == Some(String(s))
    ensures Lookup(fs, key) == Some(String(s))
  {
    LookupIsThere(es, key);
    var i :| 0 <= i < |es| && es[i] == Entry(key, String(s));
    assert HasKey(fs, es[i].key);
    var j :| 0 <= j < |fs| && fs[j].key == key;
    assert Same(es[i].value, fs[j].value);
    LookupFinds(fs, fs[j]);
  }

  lemma ContentIsProper(doc: Document)
    requires Proper(Object(doc))
    ensures Proper(Object(ContentOf(doc)))
  {
    var content := ContentOf(doc);
    ContentDistinct(doc);
    forall i | 0 <= i < |content| ensures Proper(content[i].value) { ContentMember(doc, content[i]); }
  }

  /**
   * A document read back keeps verifying: whatever its live fields have become and in
   * whatever order its keys come back, at the top and in every object inside it.
   */
  lemma StillVerifies(content: seq<Entry>, hash: Hash, status: Value, reversal: Value, replacedBy: Value, stored: Document)
    requires ProperContent(content)
    requires BuildDocument(content, hash).Some?
    requires Proper(Object(stored))
    requires Same(Object(Overlay(BuildDocument(content, hash).value, status, reversal, replacedBy)), Object(stored))
    ensures Verify(stored, hash)
  {
    var doc := BuildDocument(content, hash).value;
    var live := Overlay(doc, status, reversal, replacedBy);
    FingerprintOfBuilt(content, hash);
    OverlayKeepsContent(doc, status, reversal, replacedBy);
    SameContent(live, stored);
    SameAccepted(Object(content), Object(ContentOf(stored)));
    ContentIsProper(stored);
    PrintsAlikeExactlyWhenSame(Object(content), Object(ContentOf(stored)));
    SameText(live, stored, FINGERPRINT, Digest(content, hash).value);
  }
}
