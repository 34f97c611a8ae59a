/** The JSON of contexts and messages, and the schema that reads a context back. */
module Contexts {
  import opened Texts
  import opened Json
  import opened FieldNames
  import opened Correlation

  /** What the schema asks of texts that are URLs, UUIDs, timestamps and durations. */
  datatype Formats = Formats(
    isUrl: Text -> bool, isUuid: Text -> bool, isTimestamp: Text -> bool, isDuration: Text -> bool)

  /** The fields the schema knows; a network may add others. */
  const KNOWN: set<Text> := {
    NETWORK_ID, ACTION, PROTOCOL_VERSION, BAP_ID, BAP_URI, BPP_ID, BPP_URI, TRANSACTION_ID, MESSAGE_ID, TIMESTAMP, TTL}

  const OPTIONAL: set<Text> := {BPP_ID, BPP_URI}

  predicate HasFormat(f: Formats, k: Text, s: Text) {
    if k == BAP_URI || k == BPP_URI then f.isUrl(s)
    else if k == TRANSACTION_ID || k == MESSAGE_ID then f.isUuid(s)
    else if k == TIMESTAMP then f.isTimestamp(s)
    else if k == TTL then f.isDuration(s)
    else s != []
  }

  /** What a context holds in the known field `k`. */
  function Known(c: Context, k: Text): Option<Text> {
    if k == NETWORK_ID then Some(c.networkId)
    else if k == ACTION then Some(c.action)
    else if k == PROTOCOL_VERSION then Some(c.version)
    else if k == BAP_ID then Some(c.bapId)
    else if k == BAP_URI then Some(c.bapUri)
    else if k == BPP_ID then c.bppId
    else if k == BPP_URI then c.bppUri
    else if k == TRANSACTION_ID then Some(c.transactionId)
    else if k == MESSAGE_ID then Some(c.messageId)
    else if k == TIMESTAMP then Some(c.timestamp)
    else if k == TTL then Some(c.ttl)
    else None
  }

  /** The JSON of a context. */
  function ContextData(c: Context): Data {
    DMap(map k | k in KNOWN + c.extra.Keys && (k in KNOWN ==> Known(c, k).Some?) ::
           if k in KNOWN then DStr(Known(c, k).value) else c.extra[k])
  }

  /** The JSON of a message. */
  function MessageData(context: Context, content: Data): Data {
    DMap(map[CONTEXT := ContextData(context), MESSAGE := content])
  }

  /** The schema `BecknContext`. */
  predicate ValidContext(f: Formats, c: Context) {
    && (forall k :: k in KNOWN && Known(c, k).Some? ==> HasFormat(f, k, Known(c, k).value))
    && c.extra.Keys !! KNOWN
  }

  /** A text of its format under every known field, but for the optional ones, which may be missing. */
  predicate Readable(f: Formats, fields: map<Text, Data>) {
    forall k :: k in KNOWN && (k in fields || k !in OPTIONAL) ==>
      k in fields && fields[k].DStr? && HasFormat(f, k, fields[k].s)
  }

  /** `BecknContext.safeParse`: unknown fields are kept. */
  function ReadContext(f: Formats, d: Data): Option<Context> {
    if !d.DMap? || !Readable(f, d.fields) then None
    else
      var m := d.fields;
      Some(Context(
             m[NETWORK_ID].s, m[ACTION].s, m[PROTOCOL_VERSION].s, m[BAP_ID].s, m[BAP_URI].s,
             if BPP_ID in m then Some(m[BPP_ID].s) else None, if BPP_URI in m then Some(m[BPP_URI].s) else None,
             m[TRANSACTION_ID].s, m[MESSAGE_ID].s, m[TIMESTAMP].s, m[TTL].s,
             map k | k in m && k !in KNOWN :: m[k]))
  }

  lemma NamesDiffer()
    ensures |NETWORK_ID| == 9 && |ACTION| == 6 && |PROTOCOL_VERSION| == 7 && |BAP_ID| == 5 && |BAP_URI| == 6
    ensures |BPP_ID| == 5 && |BPP_URI| == 6 && |TRANSACTION_ID| == 13 && |MESSAGE_ID| == 9 && |TIMESTAMP| == 9
    ensures |TTL| == 3 && NETWORK_ID != MESSAGE_ID && MESSAGE_ID != TIMESTAMP && TIMESTAMP != NETWORK_ID
    ensures BAP_ID != BPP_ID && ACTION != BAP_URI && BAP_URI != BPP_URI && BPP_URI != ACTION
    ensures CONTEXT != MESSAGE
  {
    assert NETWORK_ID[0] == 110 && MESSAGE_ID[0] == 109 && TIMESTAMP[0] == 116;
    assert BAP_ID[1] == 97 && BPP_ID[1] == 112;
    assert ACTION[0] == 97 && BAP_URI[0] == 98 && BPP_URI[0] == 98 && BAP_URI[1] == 97 && BPP_URI[1] == 112;
    assert CONTEXT[0] == 99 && MESSAGE[0] == 109;
  }

  lemma KnownFields(c: Context)
    ensures Known(c, NETWORK_ID) == Some(c.networkId) && Known(c, ACTION) == Some(c.action)
    ensures Known(c, PROTOCOL_VERSION) == Some(c.version) && Known(c, BAP_ID) == Some(c.bapId)
    ensures Known(c, BAP_URI) == Some(c.bapUri) && Known(c, BPP_ID) == c.bppId && Known(c, BPP_URI) == c.bppUri
    ensures Known(c, TRANSACTION_ID) == Some(c.transactionId) && Known(c, MESSAGE_ID) == Some(c.messageId)
    ensures Known(c, TIMESTAMP) == Some(c.timestamp) && Known(c, TTL) == Some(c.ttl)
  {
    NamesDiffer();
  }

  /** What was read is what the JSON says, field by field. */
  lemma ReadFields(f: Formats, d: Data, c: Context, k: Text)
    requires ReadContext(f, d) == Some(c) && k in KNOWN
    ensures Known(c, k) == if k in d.fields then Some(d.fields[k].s) else None
    ensures k in d.fields ==> d.fields[k] == DStr(d.fields[k].s) && HasFormat(f, k, d.fields[k].s)
  {
  }

  lemma ReadIsData(f: Formats, d: Data, c: Context)
    requires ReadContext(f, d) == Some(c)
    ensures ValidContext(f, c) && d == ContextData(c)
  {
    forall k | k in KNOWN
      ensures Known(c, k) == if k in d.fields then Some(d.fields[k].s) else None
      ensures k in d.fields ==> d.fields[k] == DStr(d.fields[k].s) && HasFormat(f, k, d.fields[k].s)
    {
      ReadFields(f, d, c, k);
    }
    assert d.fields == ContextData(c).fields;
  }

  /** The JSON of a context has its known fields, where it has them, and its added ones. */
  lemma DataFields(c: Context, k: Text)
    ensures var m := ContextData(c).fields;
            if k in KNOWN then (k in m <==> Known(c, k).Some?) && (k in m ==> m[k] == DStr(Known(c, k).value))
            else (k in m <==> k in c.extra) && (k in m ==> m[k] == c.extra[k])
  {
  }

  lemma OnlyOptionalIsMissing(c: Context, k: Text)
    requires k in KNOWN && k !in OPTIONAL
    ensures Known(c, k).Some?
  {
  }

  lemma DataIsReadable(f: Formats, c: Context)
    requires ValidContext(f, c)
    ensures Readable(f, ContextData(c).fields)
  {
    var m := ContextData(c).fields;
    forall k | k in KNOWN && (k in m || k !in OPTIONAL)
      ensures k in m && m[k].DStr? && HasFormat(f, k, m[k].s)
    {
      DataFields(c, k);
      if k !in OPTIONAL {
        OnlyOptionalIsMissing(c, k);
      }
    }
  }

  lemma ExtraIsKept(c: Context)
    requires c.extra.Keys !! KNOWN
    ensures var m := ContextData(c).fields; (map k | k in m && k !in KNOWN :: m[k]) == c.extra
  {
    var m := ContextData(c).fields;
    forall k ensures k in m && k !in KNOWN <==> k in c.extra {
      DataFields(c, k);
    }
  }

  lemma DataIsRead(f: Formats, c: Context)
    requires ValidContext(f, c)
    ensures ReadContext(f, ContextData(c)) == Some(c)
  {
    DataIsReadable(f, c);
    KnownFields(c);
    ExtraIsKept(c);
  }

  /** What the schema asks of each field. */
  lemma ValidExactly(f: Formats, c: Context)
    ensures ValidContext(f, c) <==>
            && c.networkId != [] && c.action != [] && c.version != [] && c.bapId != [] && f.isUrl(c.bapUri)
            && (c.bppId.Some? ==> c.bppId.value != []) && (c.bppUri.Some? ==> f.isUrl(c.bppUri.value))
            && f.isUuid(c.transactionId) && f.isUuid(c.messageId) && f.isTimestamp(c.timestamp) && f.isDuration(c.ttl)
            && forall k :: k in c.extra ==> k !in KNOWN
  {
    NamesDiffer();
    KnownFields(c);
  }

  /** The schema accepts exactly the JSON of valid contexts, added fields included, and reads them back. */
  lemma ContextIsExact(f: Formats, d: Data, c: Context)
    ensures ReadContext(f, d) == Some(c) <==> ValidContext(f, c) && d == ContextData(c)
  {
    if ReadContext(f, d) == Some(c) {
      ReadIsData(f, d, c);
    }
    if ValidContext(f, c) {
      DataIsRead(f, c);
    }
  }
}
