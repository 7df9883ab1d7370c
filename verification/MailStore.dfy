/** Message rows, attachment rows and the attachment bucket
    (internal/store/store.go:52-239, internal/mimeutil/parse.go:132-145).  Whether a call to the
    database or the bucket works is an input: of `World` for writes under fresh names, of the
    operation for everything else. */
module MailStore {
  import opened Basics
  import opened Strings
  import opened Aliases
  import opened Filters
  import opened ParsedMail

  // ----- rows -----

  datatype Mail = Mail(from: Address, to: seq<Address>, cc: seq<Address>, bcc: seq<Address>,
                       subject: string, contentType: string, body: string)

  /** What a caller asks to be stored: one copy of a mail for one owner. */
  datatype Copy = Copy(owner: Address, folder: string, seen: bool, mail: Mail)

  /** A row of `mail_content`. */
  datatype Row = Row(copy: Copy, deleted: bool, receivedAt: int)

  /** A row of `mail_attachment`. */
  datatype Meta = Meta(id: string, message: string, filename: string, contentType: string, size: nat, bucketKey: string)

  datatype MailingList = MailingList(name: string, members: seq<Address>)

  /** One request to store a copy with its attachments. */
  datatype Save = Save(copy: Copy, receivedAt: int, parsed: seq<Parsed>)

  /** What the program is given from outside: the ids it will draw, whether there is a bucket, and
      which rows and blobs will be accepted.  No id or key is written twice, so these functions
      cover every pattern of failing writes. */
  datatype World = World(uuid: nat -> string, bucket: bool, accepts: string -> bool,
                         stores: string -> bool, records: string -> bool)

  // ----- keys -----

  function AttachmentId(message: string, i: nat): string { message + "_" + Decimal(i) }

  function BucketKey(message: string, i: nat, filename: string): string {
    message + "/" + KeyTail(i, filename)
  }

  function KeyTail(i: nat, filename: string): string { "attach_" + (Decimal(i) + "_" + filename) }

  lemma BucketKeyText(message: string, i: nat, filename: string)
    ensures BucketKey(message, i, filename) == message + "/attach_" + Decimal(i) + "_" + filename
  {
    var d := Decimal(i);
    assert message + "/attach_" + d + "_" + filename == message + ("/attach_" + (d + "_" + filename));
    assert "/attach_" + (d + "_" + filename) == "/" + ("attach_" + (d + "_" + filename));
  }

  /** The message a bucket key belongs to. */
  function KeyMessage(key: string): string { key[..IndexOf(key, '/')] }

  lemma AttachmentIdInjective(m: string, i: nat, m': string, i': nat)
    requires AttachmentId(m, i) == AttachmentId(m', i')
    ensures m == m' && i == i'
  {
    var s, d, d' := AttachmentId(m, i), Decimal(i), Decimal(i');
    assert s[|s| - |d|..] == d && s[|s| - |d'|..] == d';
    assert s[|s| - |d| - 1] == '_' && s[|s| - |d'| - 1] == '_';
    assert |d| == |d'|;
    DecimalInjective(i, i');
    assert m == s[..|s| - |d| - 1] == m';
  }

  lemma BucketKeyMessage(m: string, i: nat, f: string)
    requires '/' !in m
    ensures KeyMessage(BucketKey(m, i, f)) == m
  {
    IndexOfMiddle(m, '/', KeyTail(i, f));
    assert BucketKey(m, i, f) == m + ['/'] + KeyTail(i, f);
  }

  lemma KeyTailInjective(i: nat, f: string, i': nat, f': string)
    requires KeyTail(i, f) == KeyTail(i', f')
    ensures i == i' && f == f'
  {
    var d, d', t := Decimal(i), Decimal(i'), KeyTail(i, f)[|"attach_"|..];
    assert t == d + ['_'] + f == d' + ['_'] + f';
    IndexOfMiddle(d, '_', f);
    IndexOfMiddle(d', '_', f');
    assert t[..|d|] == d && t[..|d'|] == d';
    assert t[|d| + 1..] == f && t[|d'| + 1..] == f';
    DecimalInjective(i, i');
  }

  lemma BucketKeyInjective(m: string, i: nat, f: string, m': string, i': nat, f': string)
    requires '/' !in m && '/' !in m'
    requires BucketKey(m, i, f) == BucketKey(m', i', f')
    ensures m == m' && i == i' && f == f'
  {
    BucketKeyMessage(m, i, f);
    BucketKeyMessage(m', i', f');
    var key := BucketKey(m, i, f);
    assert KeyTail(i, f) == key[|m| + 1..] == KeyTail(i', f');
    KeyTailInjective(i, f, i', f');
  }

  function MetaOf(message: string, i: nat, p: Parsed): Meta {
    Meta(AttachmentId(message, i), message, p.filename, p.contentType, |p.data|,
         BucketKey(message, i, p.filename))
  }

  /** ToAttachmentMeta: metadata in the order of the parsed parts. */
  method ToAttachmentMeta(parsed: seq<Parsed>, message: string) returns (rows: seq<Meta>)
    ensures |rows| == |parsed|
    ensures forall i :: 0 <= i < |parsed| ==> rows[i] == MetaOf(message, i, parsed[i])
    ensures forall i :: 0 <= i < |parsed| ==>
              && rows[i].message == message && rows[i].filename == parsed[i].filename
              && rows[i].contentType == parsed[i].contentType && rows[i].size == |parsed[i].data|
              && rows[i].id == message + "_" + Decimal(i)
              && rows[i].bucketKey == message + "/attach_" + Decimal(i) + "_" + parsed[i].filename
  {
    rows := [];
    for i := 0 to |parsed|
      invariant |rows| == i
      invariant forall k :: 0 <= k < i ==> rows[k] == MetaOf(message, k, parsed[k])
    {
      rows := rows + [MetaOf(message, i, parsed[i])];
    }
    forall i | 0 <= i < |parsed|
      ensures rows[i].bucketKey == message + "/attach_" + Decimal(i) + "_" + parsed[i].filename
    {
      BucketKeyText(message, i, parsed[i].filename);
    }
  }

  // ----- attachment rows and blobs -----

  /** Where an attachment row came from. */
  datatype Origin = Origin(message: string, index: nat, parsed: Parsed)

  /** `mail_attachment` and the bucket, with what the proofs remember about them: where each
      row came from, the ids handed out so far, and the messages whose deletion failed
      half-way. */
  datatype Files = Files(metas: map<string, Meta>, blobs: map<string, seq<byte>>,
                         origins: map<string, Origin>, issued: set<string>, damaged: set<string>)

  ghost predicate FromOrigin(a: string, m: Meta, o: Origin) {
    m == MetaOf(o.message, o.index, o.parsed) && a == m.id
  }

  /** The blob the row names holds exactly the bytes that were parsed. */
  ghost predicate Intact(f: Files, a: string)
    requires a in f.metas && a in f.origins
  {
    f.metas[a].bucketKey in f.blobs && f.blobs[f.metas[a].bucketKey] == f.origins[a].parsed.data
  }

  /** Every row stems from a parsed part of an issued message, every blob belongs to an issued
      message, and every row of a message whose deletion did not fail half-way is intact. */
  ghost predicate Consistent(f: Files) {
    && (forall id :: id in f.issued ==> '/' !in id)
    && (forall k :: k in f.blobs ==> KeyMessage(k) in f.issued)
    && f.damaged <= f.issued
    && (forall a :: a in f.metas ==>
          a in f.origins && f.origins[a].message in f.issued && FromOrigin(a, f.metas[a], f.origins[a]))
    && (forall a :: a in f.metas && f.metas[a].message !in f.damaged ==> Intact(f, a))
  }

  /** `g` has the rows and blobs of `f`, and otherwise only rows of message `id` made from
      `parsed`. */
  ghost predicate Grown(f: Files, g: Files, id: string, parsed: seq<Parsed>) {
    && f.damaged == g.damaged
    && (forall k :: k in f.blobs ==> k in g.blobs && g.blobs[k] == f.blobs[k])
    && (forall a :: a in f.metas ==> a in g.metas && g.metas[a] == f.metas[a])
    && (forall a :: a in f.metas && a in f.origins ==> a in g.origins && g.origins[a] == f.origins[a])
    && (forall a :: a in g.metas && a !in f.metas ==>
          a in g.origins && g.origins[a].message == id && g.origins[a].index < |parsed|
          && g.origins[a].parsed == parsed[g.origins[a].index])
  }

  /** Every parsed part has its row. */
  ghost predicate AllSaved(f: Files, id: string, parsed: seq<Parsed>) {
    forall i :: 0 <= i < |parsed| ==> HasPart(f, id, i, parsed[i])
  }

  ghost predicate HasPart(f: Files, id: string, i: nat, p: Parsed) {
    var a := AttachmentId(id, i);
    a in f.metas && f.metas[a] == MetaOf(id, i, p) && a in f.origins && f.origins[a] == Origin(id, i, p)
  }

  // ----- saving the attachments of a message -----

  function KeyOf(id: string, i: nat, p: Parsed): string { BucketKey(id, i, p.filename) }

  /** How many of the first `n` blobs are written before one is refused. */
  function Written(w: World, id: string, parsed: seq<Parsed>, n: nat): (k: nat)
    requires n <= |parsed|
    ensures k <= n && forall i :: 0 <= i < k ==> w.stores(KeyOf(id, i, parsed[i]))
    ensures k < n ==> !w.stores(KeyOf(id, k, parsed[k]))
  {
    if n == 0 then 0
    else
      var k := Written(w, id, parsed, n - 1);
      if k == n - 1 && w.stores(KeyOf(id, n - 1, parsed[n - 1])) then n else k
  }

  /** The files with the first `n` blobs. */
  function WithBlobs(f: Files, id: string, parsed: seq<Parsed>, n: nat): Files
    requires n <= |parsed|
  {
    if n == 0 then f
    else
      var g := WithBlobs(f, id, parsed, n - 1);
      g.(blobs := g.blobs[KeyOf(id, n - 1, parsed[n - 1]) := parsed[n - 1].data])
  }

  /** The files with one more row. */
  function WithMeta(f: Files, id: string, i: nat, p: Parsed): Files {
    f.(metas := f.metas[AttachmentId(id, i) := MetaOf(id, i, p)],
       origins := f.origins[AttachmentId(id, i) := Origin(id, i, p)])
  }

  /** The files with those of the first `n` rows that are accepted. */
  function WithMetas(w: World, f: Files, id: string, parsed: seq<Parsed>, n: nat): Files
    requires n <= |parsed|
  {
    if n == 0 then f
    else
      var g := WithMetas(w, f, id, parsed, n - 1);
      if w.records(AttachmentId(id, n - 1)) then WithMeta(g, id, n - 1, parsed[n - 1]) else g
  }

  /** Blobs first; rows only when no blob was refused. */
  function SavedFiles(w: World, f: Files, id: string, parsed: seq<Parsed>): Files {
    if !w.bucket then f
    else
      var k := Written(w, id, parsed, |parsed|);
      var g := WithBlobs(f, id, parsed, k);
      if k < |parsed| then g else WithMetas(w, g, id, parsed, k)
  }

  /** Every blob and every row of the message will be accepted. */
  ghost predicate Takes(w: World, id: string, parsed: seq<Parsed>) {
    w.bucket && forall i :: 0 <= i < |parsed| ==> w.stores(KeyOf(id, i, parsed[i])) && w.records(AttachmentId(id, i))
  }

  ghost predicate NoRows(f: Files, id: string) {
    forall a :: a in f.metas ==> f.metas[a].message != id
  }

  ghost predicate Unused(f: Files, id: string) {
    NoRows(f, id) && forall k :: k in f.blobs ==> KeyMessage(k) != id
  }

  /** A blob of a message that has no rows yet. */
  lemma AddBlob(f: Files, id: string, i: nat, p: Parsed)
    requires Consistent(f) && id in f.issued && NoRows(f, id)
    ensures Consistent(f.(blobs := f.blobs[KeyOf(id, i, p) := p.data]))
  {
    BucketKeyMessage(id, i, p.filename);
    forall a | a in f.metas ensures f.metas[a].bucketKey != KeyOf(id, i, p) {
      var o := f.origins[a];
      BucketKeyMessage(o.message, o.index, o.parsed.filename);
    }
  }

  lemma {:induction false} BlobsConsistent(f: Files, id: string, parsed: seq<Parsed>, n: nat)
    requires Consistent(f) && id in f.issued && NoRows(f, id) && n <= |parsed|
    ensures var g := WithBlobs(f, id, parsed, n); Consistent(g) && g == f.(blobs := g.blobs)
  {
    if n > 0 {
      BlobsConsistent(f, id, parsed, n - 1);
      AddBlob(WithBlobs(f, id, parsed, n - 1), id, n - 1, parsed[n - 1]);
    }
  }

  lemma {:induction false} BlobsElsewhere(f: Files, id: string, parsed: seq<Parsed>, n: nat, k: string)
    requires '/' !in id && n <= |parsed| && KeyMessage(k) != id
    ensures var g := WithBlobs(f, id, parsed, n);
            (k in g.blobs <==> k in f.blobs) && (k in f.blobs ==> g.blobs[k] == f.blobs[k])
  {
    if n > 0 {
      BlobsElsewhere(f, id, parsed, n - 1, k);
      BucketKeyMessage(id, n - 1, parsed[n - 1].filename);
    }
  }

  lemma {:induction false} BlobHeld(f: Files, id: string, parsed: seq<Parsed>, n: nat, i: nat)
    requires '/' !in id && i < n <= |parsed|
    ensures var g, k := WithBlobs(f, id, parsed, n), KeyOf(id, i, parsed[i]);
            k in g.blobs && g.blobs[k] == parsed[i].data
  {
    if i < n - 1 {
      BlobHeld(f, id, parsed, n - 1, i);
      if KeyOf(id, i, parsed[i]) == KeyOf(id, n - 1, parsed[n - 1]) {
        BucketKeyInjective(id, i, parsed[i].filename, id, n - 1, parsed[n - 1].filename);
      }
    }
  }

  lemma BlobsAdded(f: Files, id: string, parsed: seq<Parsed>, n: nat)
    requires Consistent(f) && id in f.issued && NoRows(f, id) && n <= |parsed|
    ensures var g := WithBlobs(f, id, parsed, n);
            && Consistent(g) && g == f.(blobs := g.blobs)
            && (forall k :: KeyMessage(k) != id ==>
                  (k in g.blobs <==> k in f.blobs) && (k in f.blobs ==> g.blobs[k] == f.blobs[k]))
            && (forall i :: 0 <= i < n ==>
                  KeyOf(id, i, parsed[i]) in g.blobs && g.blobs[KeyOf(id, i, parsed[i])] == parsed[i].data)
  {
    var g := WithBlobs(f, id, parsed, n);
    BlobsConsistent(f, id, parsed, n);
    forall k | KeyMessage(k) != id
      ensures (k in g.blobs <==> k in f.blobs) && (k in f.blobs ==> g.blobs[k] == f.blobs[k])
    {
      BlobsElsewhere(f, id, parsed, n, k);
    }
    forall i | 0 <= i < n
      ensures KeyOf(id, i, parsed[i]) in g.blobs && g.blobs[KeyOf(id, i, parsed[i])] == parsed[i].data
    {
      BlobHeld(f, id, parsed, n, i);
    }
  }

  /** A row whose blob is in place. */
  lemma AddMeta(f: Files, id: string, i: nat, parsed: seq<Parsed>)
    requires Consistent(f) && id in f.issued && i < |parsed|
    requires KeyOf(id, i, parsed[i]) in f.blobs && f.blobs[KeyOf(id, i, parsed[i])] == parsed[i].data
    requires forall a :: a in f.metas && f.origins[a].message == id ==> f.origins[a].index < i
    ensures AttachmentId(id, i) !in f.metas
    ensures Consistent(WithMeta(f, id, i, parsed[i])) && Grown(f, WithMeta(f, id, i, parsed[i]), id, parsed)
  {
    var a := AttachmentId(id, i);
    if a in f.metas {
      AttachmentIdInjective(f.origins[a].message, f.origins[a].index, id, i);
    }
    NewMetaGrown(f, id, i, parsed);
  }

  lemma NewMetaGrown(f: Files, id: string, i: nat, parsed: seq<Parsed>)
    requires i < |parsed| && AttachmentId(id, i) !in f.metas
    ensures Grown(f, WithMeta(f, id, i, parsed[i]), id, parsed)
  {
  }

  lemma GrownTwice(f: Files, g: Files, h: Files, id: string, parsed: seq<Parsed>)
    requires Grown(f, g, id, parsed) && Grown(g, h, id, parsed)
    ensures Grown(f, h, id, parsed)
  {
  }

  /** The rows are added one by one, each where it belongs. */
  lemma {:induction false} MetasAdded(w: World, f: Files, id: string, parsed: seq<Parsed>, n: nat)
    requires Consistent(f) && id in f.issued && NoRows(f, id) && n <= |parsed|
    requires BlobsInPlace(f, id, parsed)
    ensures var g := WithMetas(w, f, id, parsed, n);
            && Consistent(g) && Grown(f, g, id, parsed) && g.blobs == f.blobs && g.issued == f.issued
            && (forall a :: a in g.metas && g.origins[a].message == id ==> g.origins[a].index < n)
  {
    if n > 0 {
      MetasAdded(w, f, id, parsed, n - 1);
      MetaAdded(f, WithMetas(w, f, id, parsed, n - 1), id, parsed, n - 1);
    }
  }

  lemma MetaAdded(f: Files, g: Files, id: string, parsed: seq<Parsed>, i: nat)
    requires Consistent(g) && id in g.issued && Grown(f, g, id, parsed) && g.blobs == f.blobs
    requires i < |parsed| && BlobsInPlace(f, id, parsed)
    requires forall a :: a in g.metas && g.origins[a].message == id ==> g.origins[a].index < i
    ensures var h := WithMeta(g, id, i, parsed[i]);
            && Consistent(h) && Grown(f, h, id, parsed) && h.blobs == g.blobs && h.issued == g.issued
            && (forall a :: a in h.metas && h.origins[a].message == id ==> h.origins[a].index < i + 1)
  {
    AddMeta(g, id, i, parsed);
    GrownTwice(f, g, WithMeta(g, id, i, parsed[i]), id, parsed);
  }

  ghost predicate BlobsInPlace(f: Files, id: string, parsed: seq<Parsed>) {
    forall i :: 0 <= i < |parsed| ==>
      KeyOf(id, i, parsed[i]) in f.blobs && f.blobs[KeyOf(id, i, parsed[i])] == parsed[i].data
  }

  /** Exactly the accepted ones are new. */
  lemma {:induction false} PartsAdded(w: World, f: Files, id: string, parsed: seq<Parsed>, n: nat, i: nat)
    requires n <= |parsed| && i < |parsed|
    ensures HasPart(WithMetas(w, f, id, parsed, n), id, i, parsed[i]) <==>
            HasPart(f, id, i, parsed[i]) || (i < n && w.records(AttachmentId(id, i)))
  {
    if n > 0 {
      PartsAdded(w, f, id, parsed, n - 1, i);
      if i != n - 1 && AttachmentId(id, i) == AttachmentId(id, n - 1) {
        AttachmentIdInjective(id, i, id, n - 1);
      }
    }
  }

  /** Saving keeps the files consistent whatever is refused, touches nothing of another message,
      and is complete exactly when nothing is refused. */
  lemma SavedFilesSound(w: World, f: Files, id: string, parsed: seq<Parsed>)
    requires Consistent(f) && id in f.issued && Unused(f, id)
    ensures var g := SavedFiles(w, f, id, parsed); Consistent(g) && Grown(f, g, id, parsed) && g.issued == f.issued
    ensures AllSaved(SavedFiles(w, f, id, parsed), id, parsed) <==> parsed == [] || Takes(w, id, parsed)
  {
    SavedFilesComplete(w, f, id, parsed);
    if w.bucket {
      var k := Written(w, id, parsed, |parsed|);
      var g := WithBlobs(f, id, parsed, k);
      BlobsAdded(f, id, parsed, k);
      BlobsGrown(f, g, id, parsed);
      if k == |parsed| {
        MetasAdded(w, g, id, parsed, k);
        GrownTwice(f, g, WithMetas(w, g, id, parsed, k), id, parsed);
      }
    }
  }

  lemma SavedFilesComplete(w: World, f: Files, id: string, parsed: seq<Parsed>)
    requires Consistent(f) && id in f.issued && Unused(f, id)
    ensures AllSaved(SavedFiles(w, f, id, parsed), id, parsed) <==> parsed == [] || Takes(w, id, parsed)
  {
    var k := Written(w, id, parsed, |parsed|);
    if w.bucket && k == |parsed| {
      BlobsAdded(f, id, parsed, k);
      RowsComplete(w, WithBlobs(f, id, parsed, k), id, parsed);
    } else if parsed != [] {
      Incomplete(w, f, id, parsed);
    }
  }

  /** Without a bucket, or after a blob that is refused, there are no rows. */
  lemma Incomplete(w: World, f: Files, id: string, parsed: seq<Parsed>)
    requires Consistent(f) && id in f.issued && NoRows(f, id) && parsed != []
    requires !w.bucket || Written(w, id, parsed, |parsed|) < |parsed|
    ensures !AllSaved(SavedFiles(w, f, id, parsed), id, parsed) && !Takes(w, id, parsed)
  {
    NoPart(f, id, 0, parsed[0]);
    if w.bucket {
      var k := Written(w, id, parsed, |parsed|);
      BlobsAdded(f, id, parsed, k);
      NoPart(WithBlobs(f, id, parsed, k), id, 0, parsed[0]);
    }
    assert !HasPart(SavedFiles(w, f, id, parsed), id, 0, parsed[0]);
  }

  /** With the blobs in place, every attachment is saved exactly if every row is accepted. */
  lemma RowsComplete(w: World, g: Files, id: string, parsed: seq<Parsed>)
    requires Consistent(g) && id in g.issued && NoRows(g, id) && BlobsInPlace(g, id, parsed)
    ensures AllSaved(WithMetas(w, g, id, parsed, |parsed|), id, parsed) <==>
            forall i :: 0 <= i < |parsed| ==> w.records(AttachmentId(id, i))
  {
    var n := |parsed|;
    MetasAdded(w, g, id, parsed, n);
    forall i | 0 <= i < n
      ensures HasPart(WithMetas(w, g, id, parsed, n), id, i, parsed[i]) <==> w.records(AttachmentId(id, i))
    {
      NoPart(g, id, i, parsed[i]);
      PartsAdded(w, g, id, parsed, n, i);
    }
  }

  lemma NoPart(f: Files, id: string, i: nat, p: Parsed)
    requires Consistent(f) && NoRows(f, id)
    ensures !HasPart(f, id, i, p)
  {
  }

  lemma BlobsGrown(f: Files, g: Files, id: string, parsed: seq<Parsed>)
    requires Consistent(f) && Unused(f, id) && g == f.(blobs := g.blobs)
    requires forall k :: KeyMessage(k) != id && k in f.blobs ==> k in g.blobs && g.blobs[k] == f.blobs[k]
    ensures Grown(f, g, id, parsed)
  {
  }

  // ----- the whole state, and what saving does to it -----

  /** UUIDs: an arbitrary supply without repetition, none containing a slash. */
  ghost predicate GoodSupply(uuid: nat -> string) { NoRepeats(uuid) && forall i :: '/' !in uuid(i) }

  datatype State = State(drawn: nat, messages: map<string, Row>, files: Files)

  ghost predicate Sound(w: World, s: State) {
    && GoodSupply(w.uuid) && Unspent(w.uuid, s.drawn, s.files.issued)
    && s.messages.Keys <= s.files.issued && Consistent(s.files)
  }

  /** saveAndDeliver: a new id; the message row; if that was accepted, the attachments. */
  function AfterSave(w: World, s: State, e: Save): State {
    var id := w.uuid(s.drawn);
    var f := s.files.(issued := s.files.issued + {id});
    if w.accepts(id)
    then State(s.drawn + 1, s.messages[id := Row(e.copy, false, e.receivedAt)], SavedFiles(w, f, id, e.parsed))
    else State(s.drawn + 1, s.messages, f)
  }

  lemma AfterSaveSound(w: World, s: State, e: Save)
    requires Sound(w, s)
    ensures var id, t := w.uuid(s.drawn), AfterSave(w, s, e);
            && Sound(w, t) && id !in s.messages && t.files.issued == s.files.issued + {id}
            && Grown(s.files, t.files, id, e.parsed)
            && (w.accepts(id) ==> (AllSaved(t.files, id, e.parsed) <==> e.parsed == [] || Takes(w, id, e.parsed)))
  {
    var id := w.uuid(s.drawn);
    var f := s.files.(issued := s.files.issued + {id});
    IssuedSound(s.files, id);
    SavedFilesSound(w, f, id, e.parsed);
    GrownFrom(s.files, f, SavedFiles(w, f, id, e.parsed), id, e.parsed);
  }

  /** A new id changes nothing about the files. */
  lemma IssuedSound(f: Files, id: string)
    requires Consistent(f) && id !in f.issued && '/' !in id
    ensures var g := f.(issued := f.issued + {id}); Consistent(g) && Unused(g, id)
  {
  }

  lemma GrownFrom(f: Files, g: Files, h: Files, id: string, parsed: seq<Parsed>)
    requires g == f.(issued := g.issued) && Grown(g, h, id, parsed)
    ensures Grown(f, g, id, parsed) && Grown(f, h, id, parsed)
  {
  }

  /** The state after a sequence of requests. */
  function Replay(w: World, s: State, saves: seq<Save>): State {
    if saves == [] then s else AfterSave(w, Replay(w, s, saves[..|saves| - 1]), saves[|saves| - 1])
  }

  lemma ReplayNext(w: World, s: State, saves: seq<Save>, e: Save)
    ensures Replay(w, s, saves + [e]) == AfterSave(w, Replay(w, s, saves), e)
  {
    assert (saves + [e])[..|saves|] == saves;
  }

  /** `saves`, all with these attachments, led from `start` to `s`. */
  ghost predicate Recorded(w: World, start: State, saves: seq<Save>, parsed: seq<Parsed>, s: State) {
    s == Replay(w, start, saves) && forall i :: 0 <= i < |saves| ==> saves[i].parsed == parsed
  }

  function Copies(saves: seq<Save>): seq<Copy> {
    seq(|saves|, i requires 0 <= i < |saves| => saves[i].copy)
  }

  /** The database takes the row drawn `i` places after `drawn`. */
  predicate Taken(w: World, drawn: nat, i: nat) { w.accepts(w.uuid(drawn + i)) }

  ghost predicate AllTaken(w: World, drawn: nat, n: nat) {
    forall i :: 0 <= i < n ==> Taken(w, drawn, i)
  }

  /** The copies that make it into the table. */
  function Stored(w: World, drawn: nat, saves: seq<Save>): seq<Copy> {
    if saves == [] then []
    else
      var k := |saves| - 1;
      var before := Stored(w, drawn, saves[..k]);
      if Taken(w, drawn, k) then before + [saves[k].copy] else before
  }

  /** The rows added with exactly this copy. */
  ghost function NewRows(m: map<string, Row>, m': map<string, Row>, c: Copy): set<string> {
    set id | id in m' && id !in m && m'[id].copy == c
  }

  lemma NewRowsStep(m: map<string, Row>, mb: map<string, Row>, id: string, row: Row, c: Copy)
    requires id !in m && id !in mb
    ensures |NewRows(m, mb[id := row], c)| == |NewRows(m, mb, c)| + if row.copy == c then 1 else 0
  {
    assert NewRows(m, mb[id := row], c) == NewRows(m, mb, c) + if row.copy == c then {id} else {};
  }

  /** What the requests mean for the table: the rows that were there are untouched, and the new rows
      are, copy for copy, the requests the database takes. */
  lemma {:induction false} ReplayRows(w: World, s: State, saves: seq<Save>, c: Copy)
    requires Sound(w, s)
    ensures var t := Replay(w, s, saves);
            && Sound(w, t) && t.drawn == s.drawn + |saves| && s.files.issued <= t.files.issued
            && (forall id :: id in s.messages ==> id in t.messages && t.messages[id] == s.messages[id])
            && |NewRows(s.messages, t.messages, c)| == multiset(Stored(w, s.drawn, saves))[c]
    decreases |saves|
  {
    if saves == [] {
      assert NewRows(s.messages, s.messages, c) == {};
    } else {
      var k := |saves| - 1;
      var b := Replay(w, s, saves[..k]);
      ReplayRows(w, s, saves[..k], c);
      AfterSaveSound(w, b, saves[k]);
      if Taken(w, s.drawn, k) {
        NewRowsStep(s.messages, b.messages, w.uuid(b.drawn), Row(saves[k].copy, false, saves[k].receivedAt), c);
      }
    }
  }

  /** Request number `k` leaves its row and its attachments - all of them exactly when nothing of
      them is refused - whatever is requested after it. */
  lemma {:induction false} ReplayAttachments(w: World, s: State, saves: seq<Save>, k: nat)
    requires Sound(w, s) && k < |saves| && Taken(w, s.drawn, k)
    ensures var id, t := w.uuid(s.drawn + k), Replay(w, s, saves);
            && id in t.messages && t.messages[id] == Row(saves[k].copy, false, saves[k].receivedAt)
            && (AllSaved(t.files, id, saves[k].parsed) <==> saves[k].parsed == [] || Takes(w, id, saves[k].parsed))
    decreases |saves|
  {
    var n := |saves| - 1;
    var b := Replay(w, s, saves[..n]);
    ReplayRows(w, s, saves[..n], saves[k].copy);
    if k < n {
      ReplayAttachments(w, s, saves[..n], k);
      LaterSave(w, b, saves[n], w.uuid(s.drawn + k), saves[k].parsed);
    } else {
      JustSaved(w, b, saves[n]);
    }
  }

  lemma JustSaved(w: World, b: State, e: Save)
    requires Sound(w, b) && w.accepts(w.uuid(b.drawn))
    ensures var id, t := w.uuid(b.drawn), AfterSave(w, b, e);
            && id in t.messages && t.messages[id] == Row(e.copy, false, e.receivedAt)
            && (AllSaved(t.files, id, e.parsed) <==> e.parsed == [] || Takes(w, id, e.parsed))
  {
    AfterSaveSound(w, b, e);
  }

  /** A message in place is not touched when another is saved. */
  lemma LaterSave(w: World, b: State, e: Save, id: string, parts: seq<Parsed>)
    requires Sound(w, b) && id in b.messages
    ensures var t := AfterSave(w, b, e);
            && id in t.messages && t.messages[id] == b.messages[id]
            && (AllSaved(t.files, id, parts) <==> AllSaved(b.files, id, parts))
  {
    var t, last := AfterSave(w, b, e), w.uuid(b.drawn);
    AfterSaveSound(w, b, e);
    assert last !in b.messages;
    PartsStay(b.files, t.files, last, e.parsed, id, parts);
  }

  /** Another message's attachments stay what they are. */
  lemma PartsStay(f: Files, g: Files, id: string, parsed: seq<Parsed>, other: string, parts: seq<Parsed>)
    requires Consistent(f) && Consistent(g) && Grown(f, g, id, parsed) && other != id
    ensures AllSaved(f, other, parts) <==> AllSaved(g, other, parts)
  {
    forall i | 0 <= i < |parts| ensures HasPart(f, other, i, parts[i]) <==> HasPart(g, other, i, parts[i]) {
      var a := AttachmentId(other, i);
      assert a in f.metas ==> a in f.origins && g.origins[a] == f.origins[a];
      assert a in g.metas && a !in f.metas ==> g.origins[a].message == id;
    }
  }

  /** The rows of message `id` are rows of the parts it was saved with, and it is not damaged. */
  ghost predicate Owns(f: Files, id: string, parsed: seq<Parsed>) {
    id !in f.damaged
    && forall a :: a in f.metas && f.metas[a].message == id ==>
         a in f.origins && f.origins[a].index < |parsed| && f.origins[a].parsed == parsed[f.origins[a].index]
  }

  lemma {:induction false} ReplayOwns(w: World, s: State, saves: seq<Save>, k: nat)
    requires Sound(w, s) && k < |saves| && Taken(w, s.drawn, k)
    ensures Owns(Replay(w, s, saves).files, w.uuid(s.drawn + k), saves[k].parsed)
    decreases |saves|
  {
    var n := |saves| - 1;
    var b, id := Replay(w, s, saves[..n]), w.uuid(s.drawn + k);
    ReplayRows(w, s, saves[..n], saves[k].copy);
    if k < n {
      ReplayOwns(w, s, saves[..n], k);
      ReplayAttachments(w, s, saves[..n], k);
      LaterOwns(w, b, saves[n], id, saves[k].parsed);
    } else {
      JustOwns(w, b, saves[n]);
    }
  }

  lemma JustOwns(w: World, b: State, e: Save)
    requires Sound(w, b)
    ensures Owns(AfterSave(w, b, e).files, w.uuid(b.drawn), e.parsed)
  {
    var id := w.uuid(b.drawn);
    AfterSaveSound(w, b, e);
    assert id !in b.files.issued;
    forall a | a in b.files.metas ensures b.files.metas[a].message != id {
      assert b.files.origins[a].message in b.files.issued;
    }
  }

  lemma LaterOwns(w: World, b: State, e: Save, id: string, parsed: seq<Parsed>)
    requires Sound(w, b) && id in b.messages && Owns(b.files, id, parsed)
    ensures Owns(AfterSave(w, b, e).files, id, parsed)
  {
    var t, last := AfterSave(w, b, e), w.uuid(b.drawn);
    AfterSaveSound(w, b, e);
    assert last !in b.messages && last != id;
    forall a | a in t.files.metas && a !in b.files.metas ensures t.files.metas[a].message == last {
      assert t.files.origins[a].message == last;
    }
  }

  // ----- removing messages -----

  /** Which calls of one DeleteMessageFull work: listing the attachments, deleting each blob (those
      `stuck` stay), deleting the attachment rows, deleting the message row. */
  datatype Removal = Removal(listed: bool, stuck: set<string>, rowsGone: bool, messageGone: bool)

  function WithoutMessage(metas: map<string, Meta>, id: string): map<string, Meta> {
    map a | a in metas && metas[a].message != id :: metas[a]
  }

  /** `k` is the blob of some attachment row of message `id`. */
  ghost predicate BlobOfMessage(metas: map<string, Meta>, id: string, k: string) {
    exists a :: a in metas && metas[a].message == id && metas[a].bucketKey == k
  }

  /** The blobs that go. */
  ghost function GoneBlobs(w: World, f: Files, id: string, r: Removal): set<string> {
    if w.bucket && r.listed then set k | k in f.blobs && BlobOfMessage(f.metas, id, k) && k !in r.stuck else {}
  }

  /** The files after a removal: a message is remembered as damaged when its rows outlive some of
      its blobs. */
  ghost function RemovedFiles(w: World, f: Files, id: string, r: Removal): Files {
    f.(blobs := f.blobs - GoneBlobs(w, f, id, r),
       metas := if r.rowsGone then WithoutMessage(f.metas, id) else f.metas,
       damaged := if !r.rowsGone && GoneBlobs(w, f, id, r) != {} then f.damaged + {id} else f.damaged)
  }

  lemma RemovedFilesConsistent(w: World, f: Files, id: string, r: Removal)
    requires Consistent(f)
    ensures Consistent(RemovedFiles(w, f, id, r))
    ensures var g := RemovedFiles(w, f, id, r);
            && (forall a :: a in f.metas && f.metas[a].message != id ==> a in g.metas && g.metas[a] == f.metas[a])
            && (forall k :: k in f.blobs && KeyMessage(k) != id ==> k in g.blobs && g.blobs[k] == f.blobs[k])
  {
    var g := RemovedFiles(w, f, id, r);
    forall k | k in GoneBlobs(w, f, id, r) ensures KeyMessage(k) == id {
      var a :| a in f.metas && f.metas[a].message == id && f.metas[a].bucketKey == k;
      RowKeyMessage(f, id, f.metas[a]);
    }
    forall a | a in g.metas && g.metas[a].message !in g.damaged ensures Intact(g, a) {
      RowKeyMessage(f, f.metas[a].message, f.metas[a]);
    }
  }

  /** A removal leaves a row of the message pointing at nothing exactly when some blob of it went but
      deleting its rows failed; that is also when it is remembered as damaged. */
  lemma DamageIsReal(w: World, f: Files, id: string, r: Removal)
    requires Consistent(f) && id !in f.damaged
    ensures var g := RemovedFiles(w, f, id, r);
            && ((exists a :: a in g.metas && g.metas[a].message == id && g.metas[a].bucketKey !in g.blobs)
                <==> !r.rowsGone && w.bucket && r.listed
                     && exists a :: a in f.metas && f.metas[a].message == id && f.metas[a].bucketKey !in r.stuck)
            && (id in g.damaged <==>
                  exists a :: a in g.metas && g.metas[a].message == id && g.metas[a].bucketKey !in g.blobs)
  {
    var gone := GoneBlobs(w, f, id, r);
    if !r.rowsGone {
      forall a | a in f.metas && f.metas[a].message == id
        ensures f.metas[a].bucketKey in gone <==> w.bucket && r.listed && f.metas[a].bucketKey !in r.stuck
      {
        assert Intact(f, a) && BlobOfMessage(f.metas, id, f.metas[a].bucketKey);
      }
      if gone != {} {
        var k :| k in gone;
        var a :| a in f.metas && f.metas[a].message == id && f.metas[a].bucketKey == k;
        assert f.metas[a].bucketKey in gone;
      }
    }
  }

  /** What a removal takes away: the message, its attachment rows and the blobs of these rows, each where the call
      works - the blobs if the rows could be listed - and nothing else. */
  lemma RemovalMeaning(w: World, s: State, id: string, r: Removal)
    ensures var t := Removed(w, s, id, r);
            && (forall x :: x in t.messages <==> x in s.messages && !(x == id && r.messageGone))
            && (forall a :: a in t.files.metas <==> a in s.files.metas
                                                    && !(s.files.metas[a].message == id && r.rowsGone))
            && (forall k :: k in t.files.blobs <==>
                  k in s.files.blobs && !(w.bucket && r.listed && k !in r.stuck && BlobOfMessage(s.files.metas, id, k)))
            && (forall x :: x in t.messages ==> t.messages[x] == s.messages[x])
            && (forall a :: a in t.files.metas ==> t.files.metas[a] == s.files.metas[a])
            && (forall k :: k in t.files.blobs ==> t.files.blobs[k] == s.files.blobs[k])
  {
  }

  /** When every call works, nothing of the message is left: no row of its own, no attachment row, and no blob an
      attachment row of it named. */
  lemma RemovedWhole(w: World, s: State, id: string, r: Removal)
    requires w.bucket && r == Removal(true, {}, true, true)
    ensures var t := Removed(w, s, id, r);
            && id !in t.messages && (forall a :: a in t.files.metas ==> t.files.metas[a].message != id)
            && (forall a :: a in s.files.metas && s.files.metas[a].message == id ==>
                  s.files.metas[a].bucketKey !in t.files.blobs)
  {
    forall a | a in s.files.metas && s.files.metas[a].message == id
      ensures BlobOfMessage(s.files.metas, id, s.files.metas[a].bucketKey)
    {
    }
  }

  ghost function Removed(w: World, s: State, id: string, r: Removal): State {
    s.(messages := if r.messageGone then s.messages - {id} else s.messages, files := RemovedFiles(w, s.files, id, r))
  }

  /** Several removals, one after the other. */
  ghost function RemoveAll(w: World, s: State, ids: seq<string>, luck: string -> Removal): State {
    if ids == [] then s
    else
      var id := ids[|ids| - 1];
      Removed(w, RemoveAll(w, s, ids[..|ids| - 1], luck), id, luck(id))
  }

  lemma RemoveNext(w: World, s: State, ids: seq<string>, id: string, luck: string -> Removal)
    ensures RemoveAll(w, s, ids + [id], luck) == Removed(w, RemoveAll(w, s, ids, luck), id, luck(id))
  {
    assert (ids + [id])[..|ids|] == ids;
  }

  /** The messages of a set whose row can be deleted. */
  ghost function Removable(ids: set<string>, luck: string -> Removal): set<string> {
    set id | id in ids && luck(id).messageGone
  }

  lemma RemovableNext(rest: seq<string>, last: string, luck: string -> Removal)
    ensures Removable((set id | id in rest + [last]), luck) ==
            Removable((set id | id in rest), luck) + if luck(last).messageGone then {last} else {}
  {
    assert forall id :: id in rest + [last] <==> id in rest || id == last;
  }

  /** Of the table exactly the messages named go, less those whose removal fails; nothing of any other
      message changes. */
  lemma {:induction false} RemoveAllExactly(w: World, s: State, ids: seq<string>, luck: string -> Removal)
    requires Sound(w, s)
    ensures var t := RemoveAll(w, s, ids, luck);
            && Sound(w, t) && t.drawn == s.drawn
            && t.messages == s.messages - Removable((set id | id in ids), luck)
            && (forall a :: a in s.files.metas && s.files.metas[a].message !in ids ==>
                  a in t.files.metas && t.files.metas[a] == s.files.metas[a])
            && (forall k :: k in s.files.blobs && KeyMessage(k) !in ids ==>
                  k in t.files.blobs && t.files.blobs[k] == s.files.blobs[k])
  {
    if ids == [] {
      assert Removable((set id | id in ids), luck) == {};
    } else {
      var last, rest := ids[|ids| - 1], ids[..|ids| - 1];
      RemoveAllExactly(w, s, rest, luck);
      RemovedFilesConsistent(w, RemoveAll(w, s, rest, luck).files, last, luck(last));
      assert ids == rest + [last];
      RemovableNext(rest, last, luck);
    }
  }

  // ----- listing -----

  /** The newest messages of the folder are listed, those in `todo` are not yet. */
  ghost predicate ListedSoFar(m: map<string, Row>, owner: Address, folder: string, ids: seq<string>,
                              todo: set<string>)
  {
    && (forall id :: id in todo || id in ids <==> id in m && InFolder(m[id], owner, folder))
    && (forall id :: id in ids ==> id !in todo)
    && (forall i, j :: 0 <= i < j < |ids| ==> ids[i] != ids[j])
    && NewestFirst(m, ids)
    && (forall x, y :: x in ids && y in todo ==> m[x].receivedAt >= m[y].receivedAt)
  }

  lemma ListedNext(m: map<string, Row>, owner: Address, folder: string, ids: seq<string>, todo: set<string>, id: string)
    requires ListedSoFar(m, owner, folder, ids, todo) && id in todo
    requires forall x :: x in todo ==> m[id].receivedAt >= m[x].receivedAt
    ensures ListedSoFar(m, owner, folder, ids + [id], todo - {id})
  {
    forall i | 0 <= i < |ids| ensures ids[i] != id && m[ids[i]].receivedAt >= m[id].receivedAt {
      assert ids[i] in ids;
    }
    assert forall x :: x in ids + [id] <==> x in ids || x == id;
  }

  // ----- the store -----

  class Store {
    const tables: Tables
    const lists: map<Address, MailingList>
    const filters: map<Address, seq<Filter>>
    const world: World
    var drawn: nat

    var messages: map<string, Row>
    var metas: map<string, Meta>
    var bucket: map<string, seq<byte>>

    ghost var origins: map<string, Origin>
    ghost var issued: set<string>
    ghost var damaged: set<string>

    ghost function View(): Files
      reads this
    {
      Files(metas, bucket, origins, issued, damaged)
    }

    ghost function Whole(): State
      reads this
    {
      State(drawn, messages, View())
    }

    ghost predicate Valid()
      reads this
    {
      Sound(world, Whole())
    }

    constructor (tables: Tables, lists: map<Address, MailingList>, filters: map<Address, seq<Filter>>, world: World)
      requires GoodSupply(world.uuid)
      ensures Valid() && Whole() == State(0, map[], Files(map[], map[], map[], {}, {}))
      ensures this.tables == tables && this.lists == lists && this.filters == filters && this.world == world
    {
      this.tables, this.lists, this.filters, this.world := tables, lists, filters, world;
      drawn, issued, messages, metas, bucket := 0, {}, map[], map[], map[];
      origins, damaged := map[], {};
    }

    /** uuid.New. */
    method NextId() returns (id: string)
      modifies this`drawn, this`issued
      ensures id == world.uuid(old(drawn)) && drawn == old(drawn) + 1 && issued == old(issued) + {id}
    {
      id := world.uuid(drawn);
      drawn, issued := drawn + 1, issued + {id};
    }

    // ----- saving -----

    method SaveMessage(id: string, row: Row) returns (ok: bool)
      modifies this`messages
      ensures ok == world.accepts(id)
      ensures messages == if ok then old(messages)[id := row] else old(messages)
    {
      ok := world.accepts(id);
      if ok {
        messages := messages[id := row];
      }
    }

    /** saveAttachments: all blobs first, up to one that is refused; the metadata is handed back only
        if none was. */
    method SaveAttachments(id: string, parsed: seq<Parsed>) returns (rows: seq<Meta>)
      modifies this`bucket
      ensures View() == if world.bucket then WithBlobs(old(View()), id, parsed, Written(world, id, parsed, |parsed|))
                        else old(View())
      ensures |rows| == if world.bucket && Written(world, id, parsed, |parsed|) == |parsed| then |parsed| else 0
      ensures forall i :: 0 <= i < |rows| ==> rows[i] == MetaOf(id, i, parsed[i])
    {
      if !world.bucket || parsed == [] {
        return [];
      }
      rows := ToAttachmentMeta(parsed, id);
      for i := 0 to |parsed|
        invariant Written(world, id, parsed, i) == i && View() == WithBlobs(old(View()), id, parsed, i)
      {
        if !world.stores(rows[i].bucketKey) {
          WrittenStays(world, id, parsed, i);
          return [];
        }
        bucket := bucket[rows[i].bucketKey := parsed[i].data];
      }
    }

    /** The row of each part, where it is accepted. */
    method SaveMetas(id: string, rows: seq<Meta>, ghost parsed: seq<Parsed>)
      requires |rows| <= |parsed| && forall i :: 0 <= i < |rows| ==> rows[i] == MetaOf(id, i, parsed[i])
      modifies this`metas, this`origins
      ensures View() == WithMetas(world, old(View()), id, parsed, |rows|)
    {
      for i := 0 to |rows|
        invariant View() == WithMetas(world, old(View()), id, parsed, i)
      {
        if world.records(rows[i].id) {
          metas := metas[rows[i].id := rows[i]];
          origins := origins[rows[i].id := Origin(id, i, parsed[i])];
        }
      }
    }

    /** saveAndDeliver: a new message row; its blobs; its attachment rows, each of which may be refused
        on its own. */
    method SaveAndDeliver(copy: Copy, parsed: seq<Parsed>) returns (ok: bool, id: string, ghost save: Save)
      requires Valid()
      modifies this
      ensures Valid() && Whole() == AfterSave(world, old(Whole()), save)
      ensures save.copy == copy && save.parsed == parsed
      ensures id == world.uuid(old(drawn)) && ok == world.accepts(id)
    {
      var receivedAt: int := *;
      save := Save(copy, receivedAt, parsed);
      AfterSaveSound(world, Whole(), save);
      id := NextId();
      ok := SaveMessage(id, Row(copy, false, receivedAt));
      if ok {
        var rows := SaveAttachments(id, parsed);
        SaveMetas(id, rows, parsed);
      }
    }

    // ----- loading -----

    /** ListAttachments: the rows of a message, in no particular order, if the query works. */
    method ListAttachments(id: string, listed: bool) returns (atts: seq<Meta>)
      requires Consistent(View())
      ensures if listed then Enumerates(View(), id, atts) else atts == []
    {
      atts := [];
      if !listed {
        return;
      }
      var todo := set a | a in metas && metas[a].message == id;
      while todo != {}
        invariant forall a :: a in todo ==> a in metas && metas[a].message == id
        invariant forall m :: m in atts ==> RowOfMessage(View(), id, m) && m.id !in todo
        invariant forall a :: a in metas && metas[a].message == id ==> a in todo || metas[a] in atts
        invariant forall i, j :: 0 <= i < j < |atts| ==> atts[i] != atts[j]
        decreases todo
      {
        var a :| a in todo;
        todo := todo - {a};
        atts := atts + [metas[a]];
      }
    }

    /** LoadAttachments: what can be read, in order; `readable` says which reads work. */
    method LoadAttachments(atts: seq<Meta>, readable: seq<bool>) returns (result: seq<Loaded>)
      requires |readable| == |atts|
      ensures result == if world.bucket then LoadedFrom(bucket, atts, readable) else []
    {
      result := [];
      if !world.bucket {
        return;
      }
      for i := 0 to |atts|
        invariant result == LoadedFrom(bucket, atts[..i], readable[..i])
      {
        TakeNext(atts, i);
        TakeNext(readable, i);
        if readable[i] && atts[i].bucketKey in bucket {
          result := result + [Loaded(atts[i], bucket[atts[i].bucketKey])];
        }
      }
      assert atts[..|atts|] == atts && readable[..|atts|] == readable;
    }

    /** ListMessages: the undeleted rows of an owner's folder, newest first, if the query works.
        Attachments are not loaded with them. */
    method ListMessages(owner: Address, folder: string, answered: bool) returns (ids: seq<string>)
      ensures if answered then Lists(messages, owner, folder, ids) && NewestFirst(messages, ids) else ids == []
      ensures answered ==>
                forall id :: id in ids <==> id in messages && messages[id].copy.owner == owner
                                            && messages[id].copy.folder == folder && !messages[id].deleted
      ensures forall i, j :: 0 <= i < j < |ids| ==>
                && ids[i] != ids[j] && ids[i] in messages && ids[j] in messages
                && messages[ids[i]].receivedAt >= messages[ids[j]].receivedAt
    {
      ids := [];
      if !answered {
        return;
      }
      var todo := set id | id in messages && InFolder(messages[id], owner, folder);
      while todo != {}
        invariant ListedSoFar(messages, owner, folder, ids, todo)
        decreases todo
      {
        LatestExists(messages, todo);
        var id :| id in todo && forall x :: x in todo ==> messages[id].receivedAt >= messages[x].receivedAt;
        ListedNext(messages, owner, folder, ids, todo, id);
        todo := todo - {id};
        ids := ids + [id];
      }
    }

    // ----- flags and deletion -----

    /** MarkSeen; a message that is gone is no error. */
    method MarkSeen(id: string, works: bool)
      requires Valid()
      modifies this`messages
      ensures Valid() && messages == Raise(old(messages), id, works, false)
      ensures messages == if !works || id !in old(messages) then old(messages)
                          else old(messages)[id := old(messages)[id].(copy := old(messages)[id].copy.(seen := true))]
    {
      if works && id in messages {
        messages := messages[id := messages[id].(copy := messages[id].copy.(seen := true))];
      }
    }

    method MarkDeleted(id: string, works: bool)
      requires Valid()
      modifies this`messages
      ensures Valid() && messages == Raise(old(messages), id, false, works)
      ensures messages == if !works || id !in old(messages) then old(messages)
                          else old(messages)[id := old(messages)[id].(deleted := true)]
    {
      if works && id in messages {
        messages := messages[id := messages[id].(deleted := true)];
      }
    }

    /** DeleteMessageFull: blobs, then attachment rows, then the message row, each step attempted
        whatever became of the others.  Only the last failure is reported. */
    method DeleteMessageFull(id: string, r: Removal) returns (ok: bool)
      requires Valid()
      modifies this`messages, this`metas, this`bucket, this`damaged
      ensures Valid() && Whole() == Removed(world, old(Whole()), id, r) && ok == r.messageGone
    {
      RemovedFilesConsistent(world, View(), id, r);
      DeleteFiles(id, r);
      messages := if r.messageGone then messages - {id} else messages;
      ok := r.messageGone;
    }

    method DeleteFiles(id: string, r: Removal)
      requires Consistent(View())
      modifies this`metas, this`bucket, this`damaged
      ensures View() == RemovedFiles(world, old(View()), id, r)
    {
      ghost var f := View();
      var atts := ListAttachments(id, r.listed);
      ghost var gone: set<string> := {};
      if world.bucket {
        gone := RemoveBlobs(atts, r.stuck);
      }
      GoneAre(world, f, id, r, atts, gone);
      metas := if r.rowsGone then WithoutMessage(metas, id) else metas;
      damaged := if !r.rowsGone && gone != {} then damaged + {id} else damaged;
    }

    method RemoveBlobs(atts: seq<Meta>, stuck: set<string>) returns (ghost gone: set<string>)
      modifies this`bucket
      ensures bucket == old(bucket) - gone
      ensures gone == set m | m in atts && m.bucketKey in old(bucket) && m.bucketKey !in stuck :: m.bucketKey
    {
      gone := {};
      for i := 0 to |atts|
        invariant bucket == old(bucket) - gone
        invariant gone == set m | m in atts[..i] && m.bucketKey in old(bucket) && m.bucketKey !in stuck :: m.bucketKey
      {
        TakeNext(atts, i);
        if atts[i].bucketKey !in stuck {
          bucket := bucket - {atts[i].bucketKey};
          gone := if atts[i].bucketKey in old(bucket) then gone + {atts[i].bucketKey} else gone;
        }
      }
      assert atts[..|atts|] == atts;
    }

    // ----- delivering several copies -----

    /** One more copy after `saves`, which led from `start` to the present state. */
    method DeliverNext(copy: Copy, parsed: seq<Parsed>, ghost start: State, ghost saves: seq<Save>)
      returns (ok: bool, ghost saves': seq<Save>)
      requires Valid() && Recorded(world, start, saves, parsed, Whole())
      modifies this
      ensures Valid() && Recorded(world, start, saves', parsed, Whole())
      ensures |saves'| == |saves| + 1 && Copies(saves') == Copies(saves) + [copy] && saves' == saves + [saves'[|saves|]]
      ensures ok == world.accepts(world.uuid(old(drawn))) && drawn == old(drawn) + 1
    {
      var id; ghost var e;
      ok, id, e := SaveAndDeliver(copy, parsed);
      ReplayNext(world, start, saves, e);
      saves' := saves + [e];
    }

    /** One copy per recipient, in order, until a row is refused. */
    method DeliverAll(plan: seq<Copy>, parsed: seq<Parsed>, ghost start: State, ghost saves: seq<Save>)
      returns (ok: bool, ghost saves': seq<Save>)
      requires Valid() && Recorded(world, start, saves, parsed, Whole())
      requires drawn == start.drawn + |saves| && AllTaken(world, start.drawn, |saves|)
      modifies this
      ensures Valid() && Recorded(world, start, saves', parsed, Whole())
      ensures Follows(world, start.drawn, saves', Copies(saves) + plan, ok)
    {
      ok, saves' := true, saves;
      for i := 0 to |plan|
        invariant Valid() && Recorded(world, start, saves', parsed, Whole())
        invariant drawn == start.drawn + |saves'| && AllTaken(world, start.drawn, |saves'|)
        invariant ok && Copies(saves') == Copies(saves) + plan[..i]
      {
        ghost var n := |saves'|;
        ok, saves' := DeliverNext(plan[i], parsed, start, saves');
        PlanStep(Copies(saves), plan, i);
        assert ok == Taken(world, start.drawn, n);
        if !ok {
          return;
        }
      }
      assert plan[..|plan|] == plan;
    }
  }

  lemma PlanStep(done: seq<Copy>, plan: seq<Copy>, i: nat)
    requires i < |plan|
    ensures done + plan[..i] + [plan[i]] == done + plan[..i + 1] <= done + plan
  {
    assert plan[..i + 1] == plan[..i] + [plan[i]];
    assert done + plan == done + plan[..i + 1] + plan[i + 1..];
  }

  lemma {:induction false} DrawnAfter(w: World, s: State, saves: seq<Save>)
    ensures Replay(w, s, saves).drawn == s.drawn + |saves|
    decreases |saves|
  {
    if saves != [] {
      DrawnAfter(w, s, saves[..|saves| - 1]);
    }
  }

  lemma {:induction false} WrittenStays(w: World, id: string, parsed: seq<Parsed>, i: nat)
    requires i < |parsed| && Written(w, id, parsed, i) == i && !w.stores(KeyOf(id, i, parsed[i]))
    ensures Written(w, id, parsed, |parsed|) == i
  {
  }

  /** The blobs removed are those of the message's rows. */
  lemma GoneAre(w: World, f: Files, id: string, r: Removal, atts: seq<Meta>, gone: set<string>)
    requires Consistent(f) && if r.listed then Enumerates(f, id, atts) else atts == []
    requires gone == if w.bucket
                     then set m | m in atts && m.bucketKey in f.blobs && m.bucketKey !in r.stuck :: m.bucketKey else {}
    ensures gone == GoneBlobs(w, f, id, r)
  {
    forall k | k in GoneBlobs(w, f, id, r) ensures k in gone {
      var a :| a in f.metas && f.metas[a].message == id && f.metas[a].bucketKey == k;
      assert RowOfMessage(f, id, f.metas[a]);
    }
    forall k | k in gone ensures k in GoneBlobs(w, f, id, r) {
      var m :| m in atts && m.bucketKey == k;
      assert RowOfMessage(f, id, m);
    }
  }

  /** The requests followed the plan: to its end when `ok`, else up to the first refusal. */
  ghost predicate Follows(w: World, drawn: nat, saves: seq<Save>, plan: seq<Copy>, ok: bool) {
    if ok then Copies(saves) == plan && AllTaken(w, drawn, |saves|)
    else saves != [] && Copies(saves) <= plan && !Taken(w, drawn, |saves| - 1) && AllTaken(w, drawn, |saves| - 1)
  }

  // ----- listings and flags -----

  /** A row with flags raised. */
  function RaisedRow(r: Row, seen: bool, deleted: bool): Row {
    r.(copy := r.copy.(seen := r.copy.seen || seen), deleted := r.deleted || deleted)
  }

  /** The table with flags raised on one message, if it is still there. */
  function Raise(m: map<string, Row>, id: string, seen: bool, deleted: bool): map<string, Row> {
    if id in m then m[id := RaisedRow(m[id], seen, deleted)] else m
  }

  predicate InFolder(r: Row, owner: Address, folder: string) {
    r.copy.owner == owner && r.copy.folder == folder && !r.deleted
  }

  /** `ids` are the undeleted messages of the folder, each once. */
  ghost predicate Lists(m: map<string, Row>, owner: Address, folder: string, ids: seq<string>) {
    && (forall id :: id in ids <==> id in m && InFolder(m[id], owner, folder))
    && (forall i, j :: 0 <= i < j < |ids| ==> ids[i] != ids[j])
  }

  ghost predicate NewestFirst(m: map<string, Row>, ids: seq<string>) {
    && (forall id :: id in ids ==> id in m)
    && (forall i, j :: 0 <= i < j < |ids| ==> m[ids[i]].receivedAt >= m[ids[j]].receivedAt)
  }

  // ----- a copy from delivery to deletion -----

  /** What happens to the store: copies are saved, flags raised, messages removed; each call works or not. */
  datatype Change = Saving(save: Save) | Seeing(id: string, works: bool) | Deleting(id: string, works: bool)
                  | Removing(id: string, removal: Removal)

  ghost function AfterChange(w: World, s: State, c: Change): State {
    match c
    case Saving(save) => AfterSave(w, s, save)
    case Seeing(id, works) => s.(messages := Raise(s.messages, id, works, false))
    case Deleting(id, works) => s.(messages := Raise(s.messages, id, false, works))
    case Removing(id, removal) => Removed(w, s, id, removal)
  }

  ghost function AfterChanges(w: World, s: State, cs: seq<Change>): State {
    if cs == [] then s else AfterChange(w, AfterChanges(w, s, cs[..|cs| - 1]), cs[|cs| - 1])
  }

  /** The change takes the message out of every listing. */
  predicate TakesAway(c: Change, id: string) {
    c == Deleting(id, true) || (c.Removing? && c.id == id && c.removal.messageGone)
  }

  predicate TakenAway(cs: seq<Change>, id: string) {
    cs != [] && (TakenAway(cs[..|cs| - 1], id) || TakesAway(cs[|cs| - 1], id))
  }

  lemma {:induction false} TakenAwayMeaning(cs: seq<Change>, id: string)
    ensures TakenAway(cs, id) <==> exists j :: 0 <= j < |cs| && TakesAway(cs[j], id)
  {
    if cs != [] {
      var n := |cs| - 1;
      TakenAwayMeaning(cs[..n], id);
      assert forall j :: 0 <= j < n ==> cs[..n][j] == cs[j];
    }
  }

  /** The message is in the listings of exactly this owner and folder, unless `gone`. */
  ghost predicate Kept(s: State, id: string, owner: Address, folder: string, gone: bool) {
    && id in s.files.issued && (!gone ==> id in s.messages)
    && (id in s.messages ==>
          s.messages[id].copy.owner == owner && s.messages[id].copy.folder == folder && s.messages[id].deleted == gone)
  }

  lemma ChangeSound(w: World, s: State, c: Change)
    requires Sound(w, s)
    ensures Sound(w, AfterChange(w, s, c))
  {
    match c
    case Saving(save) => AfterSaveSound(w, s, save);
    case Seeing(_, _) =>
    case Deleting(_, _) =>
    case Removing(id, removal) => RemovedFilesConsistent(w, s.files, id, removal);
  }

  lemma KeptNext(w: World, s: State, c: Change, id: string, owner: Address, folder: string, gone: bool)
    requires Sound(w, s) && Kept(s, id, owner, folder, gone)
    ensures Kept(AfterChange(w, s, c), id, owner, folder, gone || TakesAway(c, id))
  {
    if c.Saving? {
      AfterSaveSound(w, s, c.save);
    }
  }

  lemma {:induction false} ChangesKept(w: World, s: State, cs: seq<Change>, id: string, owner: Address, folder: string)
    requires Sound(w, s) && Kept(s, id, owner, folder, false)
    ensures var t := AfterChanges(w, s, cs);
            Sound(w, t) && Kept(t, id, owner, folder, TakenAway(cs, id))
  {
    if cs != [] {
      var n := |cs| - 1;
      var t := AfterChanges(w, s, cs[..n]);
      ChangesKept(w, s, cs[..n], id, owner, folder);
      ChangeSound(w, t, cs[n]);
      KeptNext(w, t, cs[n], id, owner, folder, TakenAway(cs[..n], id));
    }
  }

  /** From delivery to deletion: a copy that was taken is listed for an owner and a folder - whatever was saved, read
      or deleted after it - exactly if they are its own and nothing has taken it away. */
  lemma SavedIsListed(w: World, s: State, e: Save, cs: seq<Change>, owner: Address, folder: string, ids: seq<string>)
    requires Sound(w, s) && w.accepts(w.uuid(s.drawn))
    requires Lists(AfterChanges(w, AfterSave(w, s, e), cs).messages, owner, folder, ids)
    ensures var id := w.uuid(s.drawn);
            id in ids <==> e.copy.owner == owner && e.copy.folder == folder
                           && forall j :: 0 <= j < |cs| ==> !TakesAway(cs[j], id)
  {
    var id := w.uuid(s.drawn);
    AfterSaveSound(w, s, e);
    JustSaved(w, s, e);
    ChangesKept(w, AfterSave(w, s, e), cs, id, e.copy.owner, e.copy.folder);
    TakenAwayMeaning(cs, id);
  }

  lemma {:induction false} LatestExists(m: map<string, Row>, s: set<string>)
    requires s != {} && s <= m.Keys
    ensures exists id :: id in s && forall x :: x in s ==> m[id].receivedAt >= m[x].receivedAt
  {
    var a :| a in s;
    if s != {a} {
      LatestExists(m, s - {a});
      var b :| b in s - {a} && forall x :: x in s - {a} ==> m[b].receivedAt >= m[x].receivedAt;
      assert a in s && b in s;
      var id := if m[a].receivedAt >= m[b].receivedAt then a else b;
      assert forall x :: x in s ==> x == a || x in s - {a};
    }
  }

  // ----- reading back -----

  datatype Loaded = Loaded(meta: Meta, data: seq<byte>)

  ghost predicate RowOfMessage(f: Files, id: string, m: Meta) {
    m.id in f.metas && f.metas[m.id] == m && m.message == id
  }

  /** Exactly the rows of a message, each once. */
  ghost predicate Enumerates(f: Files, id: string, atts: seq<Meta>) {
    && (forall m :: m in atts <==> RowOfMessage(f, id, m))
    && (forall i, j :: 0 <= i < j < |atts| ==> atts[i] != atts[j])
  }

  lemma RowKeyMessage(f: Files, id: string, m: Meta)
    requires Consistent(f) && RowOfMessage(f, id, m)
    ensures KeyMessage(m.bucketKey) == id
  {
    var o := f.origins[m.id];
    BucketKeyMessage(o.message, o.index, o.parsed.filename);
  }

  /** What a pass over `atts` returns when exactly the `readable` reads succeed. */
  function LoadedFrom(blobs: map<string, seq<byte>>, atts: seq<Meta>, readable: seq<bool>): seq<Loaded>
    requires |readable| == |atts|
  {
    if atts == [] then []
    else
      var last := |atts| - 1;
      LoadedFrom(blobs, atts[..last], readable[..last])
      + if readable[last] && atts[last].bucketKey in blobs
        then [Loaded(atts[last], blobs[atts[last].bucketKey])] else []
  }

  /** The entry is one of the parts the message was saved with, byte for byte. */
  ghost predicate AsParsed(f: Files, id: string, e: Loaded) {
    e.meta.id in f.origins &&
    var o := f.origins[e.meta.id];
    o.message == id && e.meta == MetaOf(id, o.index, o.parsed) && e.data == o.parsed.data
  }

  /** Reading attachments of a message back yields only parts it was saved with. */
  lemma {:induction false} LoadedIsParsed(f: Files, id: string, atts: seq<Meta>, readable: seq<bool>)
    requires Consistent(f) && id !in f.damaged && |readable| == |atts|
    requires forall m :: m in atts ==> RowOfMessage(f, id, m)
    ensures forall e :: e in LoadedFrom(f.blobs, atts, readable) ==> e.meta in atts && AsParsed(f, id, e)
  {
    if atts != [] {
      var last := |atts| - 1;
      assert atts == atts[..last] + [atts[last]];
      LoadedIsParsed(f, id, atts[..last], readable[..last]);
      assert RowOfMessage(f, id, atts[last]);
    }
  }

  /** When every read works, every row is loaded, in order. */
  lemma {:induction false} LoadedAll(f: Files, id: string, atts: seq<Meta>, readable: seq<bool>)
    requires Consistent(f) && id !in f.damaged && |readable| == |atts|
    requires forall m :: m in atts ==> RowOfMessage(f, id, m)
    requires forall i :: 0 <= i < |atts| ==> readable[i]
    ensures |LoadedFrom(f.blobs, atts, readable)| == |atts|
    ensures forall i :: 0 <= i < |atts| ==> LoadedFrom(f.blobs, atts, readable)[i].meta == atts[i]
  {
    if atts != [] {
      var last := |atts| - 1;
      assert atts == atts[..last] + [atts[last]];
      LoadedAll(f, id, atts[..last], readable[..last]);
      assert RowOfMessage(f, id, atts[last]);
    }
  }

  /** A message saved without a failing write, whose rows stem from nothing else, comes back
      whole when every read works: exactly its parsed parts, each with its own bytes. */
  lemma SavedComesBack(f: Files, id: string, parsed: seq<Parsed>, atts: seq<Meta>, readable: seq<bool>, e: Loaded)
    requires Consistent(f) && id !in f.damaged && Enumerates(f, id, atts) && |readable| == |atts|
    requires forall i :: 0 <= i < |atts| ==> readable[i]
    requires AllSaved(f, id, parsed)
    requires forall a :: a in f.metas && f.metas[a].message == id ==> f.origins[a].index < |parsed|
    ensures e in LoadedFrom(f.blobs, atts, readable) <==>
            exists i :: 0 <= i < |parsed| && e == Loaded(MetaOf(id, i, parsed[i]), parsed[i].data)
  {
    var result := LoadedFrom(f.blobs, atts, readable);
    LoadedIsParsed(f, id, atts, readable);
    LoadedAll(f, id, atts, readable);
    if e in result {
      var o := f.origins[e.meta.id];
      assert RowOfMessage(f, id, e.meta);
      assert e.meta.id == AttachmentId(id, o.index);
      assert e == Loaded(MetaOf(id, o.index, parsed[o.index]), parsed[o.index].data);
    }
    forall i | 0 <= i < |parsed| ensures Loaded(MetaOf(id, i, parsed[i]), parsed[i].data) in result {
      assert HasPart(f, id, i, parsed[i]);
      var m := f.metas[AttachmentId(id, i)];
      assert RowOfMessage(f, id, m) && m == MetaOf(id, i, parsed[i]);
      var k :| 0 <= k < |atts| && atts[k] == m;
      assert result[k] in result && result[k].meta == m;
    }
  }

  /** End to end: a message is saved, others are saved after it, and its attachments are listed and read.
      What comes back are parts it was saved with, byte for byte; and all of them come back exactly if
      nothing of them was refused. */
  lemma SaveThenLoad(w: World, s: State, saves: seq<Save>, k: nat, atts: seq<Meta>, readable: seq<bool>)
    requires Sound(w, s) && k < |saves| && Taken(w, s.drawn, k)
    requires Enumerates(Replay(w, s, saves).files, w.uuid(s.drawn + k), atts) && |readable| == |atts|
    requires forall i :: 0 <= i < |atts| ==> readable[i]
    ensures var id, parsed := w.uuid(s.drawn + k), saves[k].parsed;
            var result := LoadedFrom(Replay(w, s, saves).files.blobs, atts, readable);
            && (forall e :: e in result ==> exists i: nat :: i < |parsed| && e == PartOf(id, i, parsed[i]))
            && ((forall i :: 0 <= i < |parsed| ==> PartLoaded(result, id, i, parsed[i]))
                <==> parsed == [] || Takes(w, id, parsed))
  {
    var t, id, parsed := Replay(w, s, saves), w.uuid(s.drawn + k), saves[k].parsed;
    ReplayRows(w, s, saves, saves[k].copy);
    ReplayOwns(w, s, saves, k);
    ReplayAttachments(w, s, saves, k);
    LoadedParts(t.files, id, parsed, atts, readable);
    forall i | 0 <= i < |parsed|
      ensures PartLoaded(LoadedFrom(t.files.blobs, atts, readable), id, i, parsed[i]) <==>
              HasPart(t.files, id, i, parsed[i])
    {
      LoadedPart(t.files, id, atts, readable, i, parsed[i]);
    }
  }

  function PartOf(id: string, i: nat, p: Parsed): Loaded { Loaded(MetaOf(id, i, p), p.data) }

  ghost predicate PartLoaded(result: seq<Loaded>, id: string, i: nat, p: Parsed) { PartOf(id, i, p) in result }

  lemma LoadedParts(f: Files, id: string, parsed: seq<Parsed>, atts: seq<Meta>, readable: seq<bool>)
    requires Consistent(f) && Owns(f, id, parsed) && Enumerates(f, id, atts) && |readable| == |atts|
    ensures forall e :: e in LoadedFrom(f.blobs, atts, readable) ==>
              exists i: nat :: i < |parsed| && e == PartOf(id, i, parsed[i])
  {
    LoadedIsParsed(f, id, atts, readable);
    forall e | e in LoadedFrom(f.blobs, atts, readable)
      ensures exists i: nat :: i < |parsed| && e == PartOf(id, i, parsed[i])
    {
      assert RowOfMessage(f, id, e.meta) && AsParsed(f, id, e);
      var o := f.origins[e.meta.id];
      assert e == PartOf(id, o.index, parsed[o.index]);
    }
  }

  /** A part is loaded exactly if it is saved. */
  lemma LoadedPart(f: Files, id: string, atts: seq<Meta>, readable: seq<bool>, i: nat, p: Parsed)
    requires Consistent(f) && id !in f.damaged && Enumerates(f, id, atts) && |readable| == |atts|
    requires forall k :: 0 <= k < |atts| ==> readable[k]
    ensures PartLoaded(LoadedFrom(f.blobs, atts, readable), id, i, p) <==> HasPart(f, id, i, p)
  {
    var result, m := LoadedFrom(f.blobs, atts, readable), MetaOf(id, i, p);
    LoadedIsParsed(f, id, atts, readable);
    LoadedAll(f, id, atts, readable);
    if PartOf(id, i, p) in result {
      assert RowOfMessage(f, id, m) && AsParsed(f, id, PartOf(id, i, p));
      AttachmentIdInjective(id, f.origins[m.id].index, id, i);
    }
    if HasPart(f, id, i, p) {
      assert RowOfMessage(f, id, m);
      var k :| 0 <= k < |atts| && atts[k] == m;
      assert result[k] in result && result[k].meta == m;
    }
  }

}
