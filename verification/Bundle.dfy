/**
Sigstore bundles: the JSON that carries an envelope, a public-key hint and transparency-log
entries, and the way of a signed statement through it.
*/
module Bundle {
  import opened Text
  import opened JsonValue
  import opened Base64
  import opened Dsse

  datatype PublicKeyMaterial = PublicKeyMaterial(hint: string, rawB64: string)
  datatype TlogEntry = TlogEntry(
    logIndex: int, integratedTime: int, logId: string,
    kind: string, version: string, inclusionProof: Json)
  datatype Bundle = Bundle(
    mediaType: string, publicKey: PublicKeyMaterial, envelope: Envelope, tlogs: seq<TlogEntry>)

  const MEDIA_TYPE: string := "application/vnd.dev.sigstore.bundle.v0.3+json"
  const EMPTY_OBJECT: Json := Obj(map[])

  // ---- Writing ----

  function SignatureJson(s: Signature): Json {
    Obj(map["keyid" := Str(s.keyid), "sig" := Str(s.sig)])
  }

  function EnvelopeJson(env: Envelope): Json {
    Obj(map["payloadType" := Str(env.payloadType), "payload" := Str(env.payload),
            "signatures" := Arr(seq(|env.signatures|,
              i requires 0 <= i < |env.signatures| => SignatureJson(env.signatures[i])))])
  }

  // json::empty: no elements; a string, number or boolean is never empty.
  predicate IsEmpty(j: Json) {
    j.Null? || (j.Arr? && j.items == []) || (j.Obj? && j.fields == map[])
  }

  function TlogJson(t: TlogEntry): Json {
    var m := map["logIndex" := Int(t.logIndex), "integratedTime" := Int(t.integratedTime)];
    var m := PutIf(m, t.logId != "", "logID", Str(t.logId));
    var m := PutIf(m, t.kind != "", "kindVersion",
                   Obj(map["kind" := Str(t.kind), "version" := Str(t.version)]));
    Obj(PutIf(m, !IsEmpty(t.inclusionProof), "inclusionProof", t.inclusionProof))
  }

  function KeyJson(k: PublicKeyMaterial): Json {
    Obj(PutIf(map["hint" := Str(k.hint)], k.rawB64 != "", "rawBytes", Str(k.rawB64)))
  }

  function MaterialJson(b: Bundle): Json {
    Obj(PutIf(map["publicKey" := KeyJson(b.publicKey)], b.tlogs != [], "tlogEntries",
              Arr(seq(|b.tlogs|, i requires 0 <= i < |b.tlogs| => TlogJson(b.tlogs[i])))))
  }

  function BundleJson(b: Bundle): Json {
    Obj(map["mediaType" := Str(b.mediaType), "verificationMaterial" := MaterialJson(b),
            "dsseEnvelope" := EnvelopeJson(b.envelope)])
  }

  // ---- Reading ----

  function StrMember(j: Json, key: string): string {
    if j.Contains(key) && j.fields[key].Str? then j.fields[key].s else ""
  }

  // Array elements that are not objects are skipped.
  function ReadSignatures(items: seq<Json>): seq<Signature> {
    if items == [] then []
    else
      var last := items[|items| - 1];
      ReadSignatures(items[..|items| - 1]) +
      (if last.Obj? then [Signature(StrMember(last, "keyid"), StrMember(last, "sig"))] else [])
  }

  function ReadEnvelope(j: Json): Outcome<Envelope> {
    if !j.Obj? then Err("DSSE: not an object")
    else if !j.Contains("payloadType") || !j.fields["payloadType"].Str? then
      Err("DSSE: payloadType missing or not a string")
    else if !j.Contains("payload") || !j.fields["payload"].Str? then
      Err("DSSE: payload missing or not a string")
    else
      var sigs := if j.Contains("signatures") && j.fields["signatures"].Arr?
                  then ReadSignatures(j.fields["signatures"].items) else [];
      Ok(Envelope(j.fields["payloadType"].s, j.fields["payload"].s, sigs))
  }

  function ReadTlog(j: Json): Outcome<TlogEntry> {
    if !j.Obj? then Err("tlog entry not an object")
    else
      var index, time, id := j.IntValue("logIndex", 0), j.IntValue("integratedTime", 0), j.StrValue("logID", "");
      var hasKind := j.Contains("kindVersion") && j.fields["kindVersion"].Obj?;
      var kind := if hasKind then j.fields["kindVersion"].StrValue("kind", "") else Some("");
      var version := if hasKind then j.fields["kindVersion"].StrValue("version", "") else Some("");
      var proof := if j.Contains("inclusionProof") && j.fields["inclusionProof"].Obj?
                   then j.fields["inclusionProof"] else EMPTY_OBJECT;
      if index.None? || time.None? || id.None? || kind.None? || version.None? then Thrown
      else Ok(TlogEntry(index.value, time.value, id.value, kind.value, version.value, proof))
  }

  // The first entry that does not parse ends the reading with its error.
  function ReadTlogs(items: seq<Json>): Outcome<seq<TlogEntry>> {
    if items == [] then Ok([])
    else
      match ReadTlogs(items[..|items| - 1])
      case Err(m) => Err(m)
      case Thrown => Thrown
      case Ok(ts) =>
        match ReadTlog(items[|items| - 1])
        case Err(m) => Err(m)
        case Thrown => Thrown
        case Ok(t) => Ok(ts + [t])
  }

  function ReadKey(vm: Json): Outcome<PublicKeyMaterial> {
    if !vm.Contains("publicKey") || !vm.fields["publicKey"].Obj? then Ok(PublicKeyMaterial("", ""))
    else
      var hint, raw := vm.fields["publicKey"].StrValue("hint", ""), vm.fields["publicKey"].StrValue("rawBytes", "");
      if hint.None? || raw.None? then Thrown else Ok(PublicKeyMaterial(hint.value, raw.value))
  }

  function TlogItems(vm: Json): seq<Json> {
    if vm.Contains("tlogEntries") && vm.fields["tlogEntries"].Arr? then vm.fields["tlogEntries"].items else []
  }

  function ReadBundle(j: Json): Outcome<Bundle> {
    if !j.Obj? then Err("Bundle: not an object")
    else
      var media := if j.Contains("mediaType") && j.fields["mediaType"].Str? then j.fields["mediaType"].s else MEDIA_TYPE;
      if !j.Contains("verificationMaterial") || !j.fields["verificationMaterial"].Obj? then
        Err("Bundle: missing verificationMaterial")
      else
        var vm := j.fields["verificationMaterial"];
        var key := ReadKey(vm);
        if !key.Ok? then Thrown
        else match ReadTlogs(TlogItems(vm))
          case Err(m) => Err(m)
          case Thrown => Thrown
          case Ok(tlogs) =>
            if !j.Contains("dsseEnvelope") then Err("Bundle: missing dsseEnvelope")
            else match ReadEnvelope(j.fields["dsseEnvelope"])
              case Err(m) => Err("Bundle.dsseEnvelope: " + m)
              case Thrown => Thrown
              case Ok(env) => Ok(Bundle(media, key.value, env, tlogs))
  }

  // bundle_from_json with its loop over the log entries and its early returns.
  method BundleFromJson(j: Json) returns (r: Outcome<Bundle>)
    ensures r == ReadBundle(j)
  {
    hide ReadTlog, ReadEnvelope, ReadKey;
    if !j.Obj? {
      return Err("Bundle: not an object");
    }
    var b := Bundle(MEDIA_TYPE, PublicKeyMaterial("", ""), Envelope("", "", []), []);
    if j.Contains("mediaType") && j.fields["mediaType"].Str? {
      b := b.(mediaType := j.fields["mediaType"].s);
    }
    if !j.Contains("verificationMaterial") || !j.fields["verificationMaterial"].Obj? {
      return Err("Bundle: missing verificationMaterial");
    }
    var vm := j.fields["verificationMaterial"];
    var key := ReadKey(vm);
    if !key.Ok? {
      return Thrown;
    }
    b := b.(publicKey := key.value);
    var items := TlogItems(vm);
    for n := 0 to |items|
      invariant ReadTlogs(items[..n]) == Ok(b.tlogs)
      invariant b == Bundle(b.mediaType, key.value, Envelope("", "", []), b.tlogs)
      invariant b.mediaType ==
                if j.Contains("mediaType") && j.fields["mediaType"].Str? then j.fields["mediaType"].s else MEDIA_TYPE
    {
      assert items[..n + 1][..n] == items[..n];
      var t := ReadTlog(items[n]);
      if !t.Ok? {
        ReadStopsAt(items, n + 1);
        return if t.Thrown? then Thrown else Err(t.message);
      }
      b := b.(tlogs := b.tlogs + [t.value]);
    }
    assert items[..|items|] == items;
    if !j.Contains("dsseEnvelope") {
      return Err("Bundle: missing dsseEnvelope");
    }
    var env := ReadEnvelope(j.fields["dsseEnvelope"]);
    if env.Err? {
      return Err("Bundle.dsseEnvelope: " + env.message);
    }
    if env.Thrown? {
      return Thrown;
    }
    r := Ok(b.(envelope := env.value));
  }

  lemma {:induction false} ReadStopsAt(items: seq<Json>, n: nat)
    requires n <= |items| && !ReadTlogs(items[..n]).Ok?
    ensures ReadTlogs(items) == ReadTlogs(items[..n])
    decreases |items| - n
  {
    if n < |items| {
      assert items[..n + 1][..n] == items[..n];
      ReadStopsAt(items, n + 1);
    } else {
      assert items[..n] == items;
    }
  }

  // ---- Round trips ----

  lemma SignatureBack(s: Signature)
    ensures SignatureJson(s).Obj?
    ensures Signature(StrMember(SignatureJson(s), "keyid"), StrMember(SignatureJson(s), "sig")) == s
  {
  }

  lemma {:induction false} SignaturesBack(sigs: seq<Signature>, items: seq<Json>)
    requires |items| == |sigs| && forall i :: 0 <= i < |sigs| ==> items[i] == SignatureJson(sigs[i])
    ensures ReadSignatures(items) == sigs
    decreases |sigs|
  {
    hide SignatureJson, StrMember;
    if sigs != [] {
      SignatureBack(sigs[|sigs| - 1]);
      SignaturesBack(sigs[..|sigs| - 1], items[..|sigs| - 1]);
      assert sigs == sigs[..|sigs| - 1] + [sigs[|sigs| - 1]];
    }
  }

  // Every envelope survives its JSON form.
  lemma EnvelopeRoundTrip(env: Envelope)
    ensures ReadEnvelope(EnvelopeJson(env)) == Ok(env)
  {
    hide SignatureJson, ReadSignatures;
    var items := seq(|env.signatures|, i requires 0 <= i < |env.signatures| => SignatureJson(env.signatures[i]));
    assert EnvelopeJson(env).fields["signatures"] == Arr(items);
    SignaturesBack(env.signatures, items);
  }

  // A log entry as it comes back: a version without a kind is lost, and so is an inclusion
  // proof that is not an object.
  function NormalTlog(t: TlogEntry): TlogEntry {
    t.(version := if t.kind == "" then "" else t.version,
       inclusionProof := if t.inclusionProof.Obj? then t.inclusionProof else EMPTY_OBJECT)
  }

  lemma TlogMembersBack(t: TlogEntry)
    ensures var j := TlogJson(t);
            && j.Obj? && j.IntValue("logIndex", 0) == Some(t.logIndex)
            && j.IntValue("integratedTime", 0) == Some(t.integratedTime)
            && j.StrValue("logID", "") == Some(t.logId)
            && (j.Contains("kindVersion") <==> t.kind != "")
            && (t.kind != "" ==> j.fields["kindVersion"] ==
                                 Obj(map["kind" := Str(t.kind), "version" := Str(t.version)]))
            && (j.Contains("inclusionProof") <==> !IsEmpty(t.inclusionProof))
            && (!IsEmpty(t.inclusionProof) ==> j.fields["inclusionProof"] == t.inclusionProof)
  {
  }

  lemma TlogRoundTrip(t: TlogEntry)
    ensures ReadTlog(TlogJson(t)) == Ok(NormalTlog(t))
  {
    hide TlogJson;
    TlogMembersBack(t);
    var kv := Obj(map["kind" := Str(t.kind), "version" := Str(t.version)]);
    assert kv.StrValue("kind", "") == Some(t.kind) && kv.StrValue("version", "") == Some(t.version);
  }

  function NormalTlogs(ts: seq<TlogEntry>): (r: seq<TlogEntry>)
    ensures |r| == |ts| && forall i :: 0 <= i < |r| ==> r[i] == NormalTlog(ts[i])
  {
    seq(|ts|, i requires 0 <= i < |ts| => NormalTlog(ts[i]))
  }

  lemma {:induction false} TlogsBack(ts: seq<TlogEntry>, items: seq<Json>)
    requires |items| == |ts| && forall i :: 0 <= i < |ts| ==> items[i] == TlogJson(ts[i])
    ensures ReadTlogs(items) == Ok(NormalTlogs(ts))
    decreases |ts|
  {
    hide TlogJson, ReadTlog;
    if ts != [] {
      var k := |ts| - 1;
      TlogRoundTrip(ts[k]);
      TlogsBack(ts[..k], items[..k]);
      assert NormalTlogs(ts) == NormalTlogs(ts[..k]) + [NormalTlog(ts[k])];
    }
  }

  lemma MaterialBack(b: Bundle)
    ensures ReadKey(MaterialJson(b)) == Ok(b.publicKey)
    ensures ReadTlogs(TlogItems(MaterialJson(b))) == Ok(NormalTlogs(b.tlogs))
  {
    hide TlogJson, ReadTlog, ReadTlogs, NormalTlogs;
    var items := seq(|b.tlogs|, i requires 0 <= i < |b.tlogs| => TlogJson(b.tlogs[i]));
    TlogsBack(b.tlogs, items);
    assert TlogItems(MaterialJson(b)) == items;
  }

  // Every bundle comes back with its envelope and key untouched and its log entries normal.
  lemma BundleRoundTrip(b: Bundle)
    ensures ReadBundle(BundleJson(b)) == Ok(b.(tlogs := NormalTlogs(b.tlogs)))
  {
    hide MaterialJson, EnvelopeJson, ReadEnvelope, ReadKey, ReadTlogs, TlogItems, NormalTlogs;
    MaterialBack(b);
    EnvelopeRoundTrip(b.envelope);
    assert MaterialJson(b).Obj? by {
      MaterialIsObject(b);
    }
  }

  lemma MaterialIsObject(b: Bundle)
    ensures MaterialJson(b).Obj?
  {
  }

  // So a bundle survives unchanged exactly when no entry has a version without a kind or a
  // proof that is not an object.
  lemma BundleSurvives(b: Bundle)
    ensures ReadBundle(BundleJson(b)) == Ok(b) <==>
            forall i :: 0 <= i < |b.tlogs| ==>
              (b.tlogs[i].kind == "" ==> b.tlogs[i].version == "") && b.tlogs[i].inclusionProof.Obj?
  {
    hide ReadBundle, BundleJson;
    BundleRoundTrip(b);
    if ReadBundle(BundleJson(b)) == Ok(b) {
      assert NormalTlogs(b.tlogs) == b.tlogs;
      forall i | 0 <= i < |b.tlogs|
        ensures (b.tlogs[i].kind == "" ==> b.tlogs[i].version == "") && b.tlogs[i].inclusionProof.Obj?
      {
        assert NormalTlogs(b.tlogs)[i] == NormalTlog(b.tlogs[i]);
      }
    } else {
      assert NormalTlogs(b.tlogs) != b.tlogs;
    }
  }

  // ---- Bundles with a member missing ----

  // Without its media type a bundle is read with the default one; without verification material or
  // envelope it is refused, and the material is looked at first.
  lemma MembersMissing(b: Bundle)
    ensures var fields := BundleJson(b).fields;
            && ReadBundle(Obj(fields - {"mediaType"})) ==
               Ok(b.(mediaType := "application/vnd.dev.sigstore.bundle.v0.3+json", tlogs := NormalTlogs(b.tlogs)))
            && ReadBundle(Obj(fields - {"dsseEnvelope"})) == Err("Bundle: missing dsseEnvelope")
            && ReadBundle(Obj(fields - {"verificationMaterial"})) == Err("Bundle: missing verificationMaterial")
            && ReadBundle(Obj(fields - {"verificationMaterial", "dsseEnvelope"})) ==
               Err("Bundle: missing verificationMaterial")
    ensures forall j: Json :: !j.Obj? ==> ReadBundle(j) == Err("Bundle: not an object")
  {
    hide MaterialJson, EnvelopeJson, ReadEnvelope, ReadKey, ReadTlogs, TlogItems, NormalTlogs;
    MaterialBack(b);
    MaterialIsObject(b);
    EnvelopeRoundTrip(b.envelope);
  }

  // With another envelope in its place a bundle is that envelope's, or is refused with its complaint.
  lemma EnvelopeReplaced(b: Bundle, env: Json)
    ensures ReadBundle(Obj(BundleJson(b).fields["dsseEnvelope" := env])) ==
            match ReadEnvelope(env)
            case Err(m) => Err("Bundle.dsseEnvelope: " + m)
            case Thrown => Thrown
            case Ok(e) => Ok(b.(envelope := e, tlogs := NormalTlogs(b.tlogs)))
  {
    hide MaterialJson, EnvelopeJson, ReadEnvelope, ReadKey, ReadTlogs, TlogItems, NormalTlogs;
    MaterialBack(b);
    MaterialIsObject(b);
  }

  // An envelope with a member of another type is refused, unless that is its signatures.
  lemma EnvelopeDamaged(env: Envelope, other: Json)
    requires !other.Str?
    ensures var fields := EnvelopeJson(env).fields;
            && (!other.Obj? ==> ReadEnvelope(other) == Err("DSSE: not an object"))
            && ReadEnvelope(Obj(fields["payloadType" := other])) == Err("DSSE: payloadType missing or not a string")
            && ReadEnvelope(Obj(fields["payload" := other])) == Err("DSSE: payload missing or not a string")
            && ReadEnvelope(Obj(fields["payload" := other]["payloadType" := other])) ==
               Err("DSSE: payloadType missing or not a string")
            && (!other.Arr? ==> ReadEnvelope(Obj(fields["signatures" := other])) == Ok(env.(signatures := [])))
  {
    hide ReadSignatures, SignatureJson;
  }

  // A log entry that is no object ends the reading, whatever else is wrong after it; what an entry
  // or a key leaves out is empty.
  lemma MaterialDamaged(b: Bundle, entry: Json, after: seq<Json>)
    requires !entry.Obj?
    ensures ReadTlogs([entry] + after) == Err("tlog entry not an object")
    ensures ReadTlog(EMPTY_OBJECT) == Ok(TlogEntry(0, 0, "", "", "", EMPTY_OBJECT))
    ensures ReadTlog(Obj(map["kindVersion" := EMPTY_OBJECT])) == Ok(TlogEntry(0, 0, "", "", "", EMPTY_OBJECT))
    ensures ReadKey(EMPTY_OBJECT) == Ok(PublicKeyMaterial("", ""))
    ensures ReadKey(Obj(map["publicKey" := EMPTY_OBJECT])) == Ok(PublicKeyMaterial("", ""))
  {
    var items := [entry] + after;
    assert items[..1] == [entry] && [entry][..0] == [] && [entry][0] == entry;
    ReadStopsAt(items, 1);
  }

  // ---- Sign, transport, verify ----

  // In any bundle, an entry with a version but no kind and a proof that is a string loses both.
  lemma BundleLoses(b: Bundle)
    ensures var entry := TlogEntry(7, 0, "log", "", "0.0.1", Str("proof"));
            ReadBundle(BundleJson(b.(tlogs := [entry]))) ==
            Ok(b.(tlogs := [TlogEntry(7, 0, "log", "", "", EMPTY_OBJECT)]))
  {
    var entry := TlogEntry(7, 0, "log", "", "0.0.1", Str("proof"));
    BundleRoundTrip(b.(tlogs := [entry]));
    assert NormalTlogs([entry]) == [NormalTlog(entry)];
  }

  // A statement signed, put into any bundle beside any other signatures, printed, parsed and
  // verified under the matching key gives back exactly the bytes that were signed.
  lemma SignTransportVerify(codec: Codec, scheme: Scheme, s: Statement, secret: seq<Byte>, public_: seq<Byte>,
                            keyid: string, before: seq<Signature>, after: seq<Signature>, carrier: Bundle)
    requires Faithful(codec) && KeyPair(scheme, secret, public_)
    requires Valid(s) && IsOctets(Serialise(codec, s))
    ensures var signed := Sign(codec, scheme, s, secret, keyid);
            && signed.Ok?
            && var env := signed.value.(signatures := before + signed.value.signatures + after);
               var text := codec.dump(BundleJson(carrier.(envelope := env)));
               && codec.parse(text).Some?
               && var received := ReadBundle(codec.parse(text).value);
                  received.Ok? && Verify(scheme, received.value.envelope, public_) == Ok(Serialise(codec, s))
    ensures codec.parse(Serialise(codec, s)).Some? &&
            ReadStatement(codec.parse(Serialise(codec, s)).value) == Some(s)
  {
    hide Sign, Verify, ReadBundle, BundleJson, StatementJson, ReadStatement;
    StatementReadsBack(s);
    SignVerify(codec, scheme, s, secret, public_, keyid, before, after);
    var signed := Sign(codec, scheme, s, secret, keyid).value;
    var env := signed.(signatures := before + signed.signatures + after);
    BundleRoundTrip(carrier.(envelope := env));
  }
}
