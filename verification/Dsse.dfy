/**
DSSE envelopes: pre-authentication encoding, signing and verification. The signature
scheme is a parameter.
*/
module Dsse {
  import opened Text
  import opened JsonValue
  import opened Base64

  // What an expected<T, Error> or an exception gives.
  datatype Outcome<+T> = Ok(value: T) | Err(message: string) | Thrown

  datatype Signature = Signature(keyid: string, sig: string)
  datatype Envelope = Envelope(payloadType: string, payload: string, signatures: seq<Signature>)

  const IN_TOTO: string := "application/vnd.in-toto+json"

  // ---- Bytes and characters ----

  predicate IsOctets(s: string) {
    forall i :: 0 <= i < |s| ==> s[i] as int < 256
  }

  function Octets(s: string): (r: seq<Byte>)
    ensures |r| == |s|
  {
    seq(|s|, i requires 0 <= i < |s| => s[i] as int % 256)
  }

  function Chars(data: seq<Byte>): (r: string)
    ensures |r| == |data| && forall i :: 0 <= i < |r| ==> r[i] as int == data[i]
  {
    seq(|data|, i requires 0 <= i < |data| => data[i] as char)
  }

  lemma CharsOfOctets(s: string)
    requires IsOctets(s)
    ensures Chars(Octets(s)) == s
  {
  }

  lemma CharsInjective(a: seq<Byte>, b: seq<Byte>)
    requires Chars(a) == Chars(b)
    ensures a == b
  {
    assert forall i :: 0 <= i < |a| ==> Chars(a)[i] as int == a[i];
  }

  // ---- Pre-authentication encoding ----

  const VERSION: string := "DSSEv1 "

  function PaeTail(payload: seq<Byte>): string {
    Decimal(|payload|) + (" " + Chars(payload))
  }

  function Pae(payloadType: string, payload: seq<Byte>): string {
    VERSION + (Decimal(|payloadType|) + (" " + (payloadType + (" " + PaeTail(payload)))))
  }

  method ComputePae(payloadType: string, payload: seq<Byte>) returns (out: string)
    ensures out == Pae(payloadType, payload)
  {
    out := "DSSEv1";
    out := out + " ";
    out := out + Decimal(|payloadType|);
    out := out + " ";
    out := out + payloadType;
    out := out + " ";
    out := out + Decimal(|payload|);
    out := out + " ";
    out := out + Chars(payload);
  }

  lemma NumberThenSpace(m: nat, r: string, n: nat, s: string)
    requires Decimal(m) + (" " + r) == Decimal(n) + (" " + s)
    ensures m == n && r == s
  {
    var a, b := Decimal(m) + (" " + r), Decimal(n) + (" " + s);
    DigitRunExact(Decimal(m), " " + r);
    DigitRunExact(Decimal(n), " " + s);
    assert a[..|Decimal(m)|] == Decimal(m) && b[..|Decimal(n)|] == Decimal(n);
    DecimalValue(m);
    DecimalValue(n);
    assert a[|Decimal(m)| + 1..] == r && b[|Decimal(n)| + 1..] == s;
  }

  lemma DropPrefix(p: string, r: string, q: string, s: string)
    requires p + r == q + s && |p| == |q|
    ensures p == q && r == s
  {
    assert (p + r)[..|p|] == p && (q + s)[..|q|] == q;
    assert (p + r)[|p|..] == r && (q + s)[|q|..] == s;
  }

  // The encoding determines both the type and the payload.
  lemma PaeInjective(t: string, p: seq<Byte>, u: string, q: seq<Byte>)
    requires Pae(t, p) == Pae(u, q)
    ensures t == u && p == q
  {
    var afterT, afterU := t + (" " + PaeTail(p)), u + (" " + PaeTail(q));
    DropPrefix(VERSION, Decimal(|t|) + (" " + afterT), VERSION, Decimal(|u|) + (" " + afterU));
    NumberThenSpace(|t|, afterT, |u|, afterU);
    DropPrefix(t, " " + PaeTail(p), u, " " + PaeTail(q));
    DropPrefix(" ", PaeTail(p), " ", PaeTail(q));
    NumberThenSpace(|p|, Chars(p), |q|, Chars(q));
    CharsInjective(p, q);
  }

  // ---- Statements ----

  datatype Subject = Subject(name: string, digest: map<string, string>)
  datatype Statement = Statement(subjects: seq<Subject>, predicateType: string, predicate_: Json)

  predicate IsHex(c: char) {
    '0' <= c <= '9' || 'a' <= c <= 'f' || 'A' <= c <= 'F'
  }

  predicate ValidDigest(d: map<string, string>) {
    d != map[] && forall alg :: alg in d ==>
      alg != "" && d[alg] != "" && forall i :: 0 <= i < |d[alg]| ==> IsHex(d[alg][i])
  }

  predicate Valid(s: Statement) {
    && s.subjects != []
    && (forall i :: 0 <= i < |s.subjects| ==> s.subjects[i].name != "" && ValidDigest(s.subjects[i].digest))
    && s.predicateType != "" && ':' in s.predicateType
  }

  function SubjectJson(s: Subject): Json {
    Obj(map["name" := Str(s.name), "digest" := Obj(map alg | alg in s.digest :: Str(s.digest[alg]))])
  }

  function SubjectItems(subjects: seq<Subject>): seq<Json> {
    seq(|subjects|, i requires 0 <= i < |subjects| => SubjectJson(subjects[i]))
  }

  function StatementJson(s: Statement): Json {
    Obj(map[
      "_type" := Str("https://in-toto.io/Statement/v1"),
      "predicateType" := Str(s.predicateType),
      "predicate" := s.predicate_,
      "subject" := Arr(SubjectItems(s.subjects))])
  }

  // serialise_for_signing.
  function Serialise(codec: Codec, s: Statement): string {
    codec.dump(StatementJson(s))
  }

  // ---- Reading a statement back ----

  function ReadSubject(j: Json): Option<Subject> {
    if j.Contains("name") && j.fields["name"].Str? && j.Contains("digest") && j.fields["digest"].Obj? &&
       forall v :: v in j.fields["digest"].fields.Values ==> v.Str?
    then
      var digest := j.fields["digest"].fields;
      Some(Subject(j.fields["name"].s, map alg | alg in digest :: assert digest[alg] in digest.Values; digest[alg].s))
    else None
  }

  function ReadSubjects(items: seq<Json>): Option<seq<Subject>> {
    if items == [] then Some([])
    else
      var first, rest := ReadSubject(items[0]), ReadSubjects(items[1..]);
      if first.None? || rest.None? then None else Some([first.value] + rest.value)
  }

  // A consumer of the in-toto Statement v1 layout.
  function ReadStatement(j: Json): Option<Statement> {
    if j.Contains("_type") && j.fields["_type"] == Str("https://in-toto.io/Statement/v1") &&
       j.Contains("predicateType") && j.fields["predicateType"].Str? && j.Contains("predicate") &&
       j.Contains("subject") && j.fields["subject"].Arr?
    then match ReadSubjects(j.fields["subject"].items)
      case None => None
      case Some(subjects) => Some(Statement(subjects, j.fields["predicateType"].s, j.fields["predicate"]))
    else None
  }

  lemma SubjectReadsBack(s: Subject)
    ensures ReadSubject(SubjectJson(s)) == Some(s)
  {
    var digest := SubjectJson(s).fields["digest"].fields;
    assert (map alg | alg in digest :: digest[alg].s) == s.digest;
  }

  lemma {:induction false} SubjectsReadBack(subjects: seq<Subject>)
    ensures ReadSubjects(SubjectItems(subjects)) == Some(subjects)
    decreases |subjects|
  {
    hide ReadSubject, SubjectJson;
    if subjects != [] {
      var rest := subjects[1..];
      SubjectReadsBack(subjects[0]);
      SubjectsReadBack(rest);
      assert SubjectItems(subjects)[1..] == SubjectItems(rest);
      assert subjects == [subjects[0]] + rest;
    }
  }

  // What is written is a statement in that layout, with every subject, digest and predicate.
  lemma StatementReadsBack(s: Statement)
    ensures ReadStatement(StatementJson(s)) == Some(s)
  {
    hide ReadSubjects, SubjectItems;
    SubjectsReadBack(s.subjects);
  }

  // So the bytes that are signed determine the statement.
  lemma SerialiseInjective(codec: Codec, s: Statement, t: Statement)
    requires Faithful(codec) && Serialise(codec, s) == Serialise(codec, t)
    ensures s == t
  {
    hide StatementJson, ReadStatement;
    assert codec.parse(Serialise(codec, s)) == Some(StatementJson(s)) == Some(StatementJson(t));
    StatementReadsBack(s);
    StatementReadsBack(t);
  }

  // ---- Signing ----

  // Ed25519 as a parameter: sign(secret, message) and verify(public, message, signature).
  datatype Scheme = Scheme(
    sign: (seq<Byte>, string) -> seq<Byte>,
    verify: (seq<Byte>, string, seq<Byte>) -> bool)

  // The keys match: what one signs the other accepts, and signatures have 64 bytes.
  ghost predicate KeyPair(scheme: Scheme, secret: seq<Byte>, public_: seq<Byte>) {
    forall m: string :: |scheme.sign(secret, m)| == 64 && scheme.verify(public_, m, scheme.sign(secret, m))
  }

  function Sign(codec: Codec, scheme: Scheme, s: Statement, secret: seq<Byte>, keyid: string): Outcome<Envelope> {
    if !Valid(s) then Err("Statement validation")
    else
      var payload := Octets(Serialise(codec, s));
      var sig := scheme.sign(secret, Pae(IN_TOTO, payload));
      Ok(Envelope(IN_TOTO, Encode(payload), [Signature(keyid, Encode(sig))]))
  }

  method SignStatement(codec: Codec, scheme: Scheme, s: Statement, secret: seq<Byte>, keyid: string)
    returns (r: Outcome<Envelope>)
    ensures r == Sign(codec, scheme, s, secret, keyid)
  {
    if !Valid(s) {
      return Err("Statement validation");
    }
    var payload := Octets(Serialise(codec, s));
    var message := ComputePae(IN_TOTO, payload);
    var encoded := Base64Encode(payload);
    var sig := Base64Encode(scheme.sign(secret, message));
    r := Ok(Envelope(IN_TOTO, encoded, [Signature(keyid, sig)]));
  }

  // A statement is signed if and only if it has a subject, every subject a name and digests in
  // hexadecimal, and its predicate type the look of a URI.
  lemma SignsExactly(codec: Codec, scheme: Scheme, s: Statement, secret: seq<Byte>, keyid: string)
    ensures Sign(codec, scheme, s, secret, keyid).Ok? <==>
            && |s.subjects| > 0
            && (forall x :: x in s.subjects ==> |x.name| > 0 && |x.digest| > 0)
            && (forall x, alg :: x in s.subjects && alg in x.digest ==> |alg| > 0 && |x.digest[alg]| > 0)
            && (forall x, alg, c :: x in s.subjects && alg in x.digest && c in x.digest[alg] ==>
                  c in "0123456789abcdefABCDEF")
            && exists k :: 0 <= k < |s.predicateType| && s.predicateType[k] == ':'
    ensures Sign(codec, scheme, s, secret, keyid).Ok? ==>
            var env := Sign(codec, scheme, s, secret, keyid).value;
            && env.payloadType == "application/vnd.in-toto+json"
            && |env.signatures| == 1 && env.signatures[0].keyid == keyid
  {
    forall c: char ensures IsHex(c) <==> c in "0123456789abcdefABCDEF" {
      HexDigits(c);
    }
    hide IsHex;
  }

  lemma HexDigits(c: char)
    ensures IsHex(c) <==> c in "0123456789abcdefABCDEF"
  {
    var hex := "0123456789abcdefABCDEF";
    if '0' <= c <= '9' {
      assert hex[c as int - '0' as int] == c;
    } else if 'a' <= c <= 'f' {
      assert hex[c as int - 'a' as int + 10] == c;
    } else if 'A' <= c <= 'F' {
      assert hex[c as int - 'A' as int + 16] == c;
    }
  }

  // ---- Verification ----

  predicate Accepts(scheme: Scheme, public_: seq<Byte>, message: string, sig: Signature) {
    var raw := Decode(sig.sig);
    raw.Some? && |raw.value| == 64 && scheme.verify(public_, message, raw.value)
  }

  predicate AnyAccepts(scheme: Scheme, public_: seq<Byte>, message: string, sigs: seq<Signature>) {
    exists i :: 0 <= i < |sigs| && Accepts(scheme, public_, message, sigs[i])
  }

  function Verify(scheme: Scheme, env: Envelope, public_: seq<Byte>): Outcome<string> {
    if env.signatures == [] then Err("Envelope has no signatures")
    else match Decode(env.payload)
      case None => Err("payload base64 decode: base64: invalid character")
      case Some(payload) =>
        if AnyAccepts(scheme, public_, Pae(env.payloadType, payload), env.signatures) then Ok(Chars(payload))
        else Err("No valid signature found for the supplied public key")
  }

  method VerifyEnvelope(scheme: Scheme, env: Envelope, public_: seq<Byte>) returns (r: Outcome<string>)
    ensures r == Verify(scheme, env, public_)
  {
    if env.signatures == [] {
      return Err("Envelope has no signatures");
    }
    var payload := Base64Decode(env.payload);
    if payload.None? {
      return Err("payload base64 decode: base64: invalid character");
    }
    var message := ComputePae(env.payloadType, payload.value);
    var anyOk, i := false, 0;
    while i < |env.signatures| && !anyOk
      invariant i <= |env.signatures|
      invariant anyOk ==> AnyAccepts(scheme, public_, message, env.signatures)
      invariant !anyOk ==> forall k :: 0 <= k < i ==> !Accepts(scheme, public_, message, env.signatures[k])
    {
      var raw := Base64Decode(env.signatures[i].sig);
      if raw.Some? && |raw.value| == 64 && scheme.verify(public_, message, raw.value) {
        assert Accepts(scheme, public_, message, env.signatures[i]);
        anyOk := true;
      }
      i := i + 1;
    }
    if !anyOk {
      return Err("No valid signature found for the supplied public key");
    }
    r := Ok(Chars(payload.value));
  }

  // Which complaint comes first: no signatures before an unreadable payload, that before no match.
  lemma RefusedFor(scheme: Scheme, env: Envelope, public_: seq<Byte>)
    ensures var r := Verify(scheme, env, public_);
            && (r == Err("Envelope has no signatures") <==> |env.signatures| == 0)
            && (r == Err("payload base64 decode: base64: invalid character") <==>
                |env.signatures| > 0 && Decode(env.payload) == None)
            && (r == Err("No valid signature found for the supplied public key") <==>
                |env.signatures| > 0 && Decode(env.payload) != None && !r.Ok?)
            && !r.Thrown?
  {
    hide Decode, Pae, AnyAccepts;
    assert |"Envelope has no signatures"| == 26 && |"payload base64 decode: base64: invalid character"| == 48
        && |"No valid signature found for the supplied public key"| == 52;
  }

  // Whatever other signatures stand before and after it, one matching signature is enough,
  // and the payload returned is the statement that was signed.
  lemma SignVerify(codec: Codec, scheme: Scheme, s: Statement, secret: seq<Byte>, public_: seq<Byte>,
                   keyid: string, before: seq<Signature>, after: seq<Signature>)
    requires Valid(s) && KeyPair(scheme, secret, public_) && IsOctets(Serialise(codec, s))
    ensures var signed := Sign(codec, scheme, s, secret, keyid);
            && signed.Ok?
            && var env := signed.value.(signatures := before + signed.value.signatures + after);
               Verify(scheme, env, public_) == Ok(Serialise(codec, s))
  {
    hide Encode, Decode, Pae;
    var payload := Octets(Serialise(codec, s));
    var message := Pae(IN_TOTO, payload);
    var env0 := Sign(codec, scheme, s, secret, keyid).value;
    var sigs := before + env0.signatures + after;
    Base64RoundTrip(payload);
    Base64RoundTrip(scheme.sign(secret, message));
    assert sigs[|before|] == env0.signatures[0];
    assert Accepts(scheme, public_, message, sigs[|before|]);
    CharsOfOctets(Serialise(codec, s));
  }

  predicate Malformed(sig: Signature) {
    Decode(sig.sig).None? || |Decode(sig.sig).value| != 64
  }

  // Malformed signatures mixed into an envelope that has others never change the verdict.
  lemma MalformedIgnored(scheme: Scheme, env: Envelope, public_: seq<Byte>, extra: Signature, k: nat)
    requires k <= |env.signatures| && env.signatures != [] && Malformed(extra)
    ensures Verify(scheme, env.(signatures := env.signatures[..k] + [extra] + env.signatures[k..]), public_) ==
            Verify(scheme, env, public_)
  {
    hide Decode, Pae;
    var more := env.signatures[..k] + [extra] + env.signatures[k..];
    var payload := Decode(env.payload);
    if payload.Some? {
      var m := Pae(env.payloadType, payload.value);
      if i :| 0 <= i < |env.signatures| && Accepts(scheme, public_, m, env.signatures[i]) {
        assert more[if i < k then i else i + 1] == env.signatures[i];
      }
      if i :| 0 <= i < |more| && Accepts(scheme, public_, m, more[i]) {
        assert i != k;
        assert more[i] == env.signatures[if i < k then i else i - 1];
      }
    }
  }

  // ---- Authenticity under an ideal scheme ----

  // Only messages that were signed verify.
  ghost predicate Unforgeable(scheme: Scheme, public_: seq<Byte>, signed: set<string>) {
    forall m: string, sig: seq<Byte> :: scheme.verify(public_, m, sig) ==> m in signed
  }

  // A verified payload was signed, under the very payload type the envelope names.
  lemma Authentic(scheme: Scheme, public_: seq<Byte>, pairs: set<(string, seq<Byte>)>, env: Envelope)
    requires Unforgeable(scheme, public_, set x | x in pairs :: Pae(x.0, x.1))
    requires Verify(scheme, env, public_).Ok?
    ensures exists p :: (env.payloadType, p) in pairs && Verify(scheme, env, public_) == Ok(Chars(p))
  {
    hide Decode;
    var payload := Decode(env.payload).value;
    var m := Pae(env.payloadType, payload);
    var signed := set x | x in pairs :: Pae(x.0, x.1);
    var i :| 0 <= i < |env.signatures| && Accepts(scheme, public_, m, env.signatures[i]);
    assert m in signed;
    var x :| x in pairs && Pae(x.0, x.1) == m;
    PaeInjective(x.0, x.1, env.payloadType, payload);
    assert (env.payloadType, payload) in pairs;
  }

  // A signer that only ever signs statements: what verifies is one of them, unchanged, and any
  // statement a verified payload is the serialisation of was itself signed.
  lemma OnlySignedStatements(codec: Codec, scheme: Scheme, public_: seq<Byte>, log: seq<Statement>, env: Envelope)
    requires forall i :: 0 <= i < |log| ==> IsOctets(Serialise(codec, log[i]))
    requires Unforgeable(scheme, public_,
               set i | 0 <= i < |log| :: Pae(IN_TOTO, Octets(Serialise(codec, log[i]))))
    requires Verify(scheme, env, public_).Ok?
    ensures env.payloadType == IN_TOTO
    ensures exists i :: 0 <= i < |log| && Verify(scheme, env, public_) == Ok(Serialise(codec, log[i]))
    ensures Faithful(codec) ==>
              forall t :: Verify(scheme, env, public_) == Ok(Serialise(codec, t)) ==> t in log
  {
    hide Decode, Verify, Serialise;
    var pairs := set i | 0 <= i < |log| :: (IN_TOTO, Octets(Serialise(codec, log[i])));
    forall m: string, sig: seq<Byte> | scheme.verify(public_, m, sig)
      ensures m in (set x | x in pairs :: Pae(x.0, x.1))
    {
      var i :| 0 <= i < |log| && m == Pae(IN_TOTO, Octets(Serialise(codec, log[i])));
      var x := (IN_TOTO, Octets(Serialise(codec, log[i])));
      assert x in pairs && m == Pae(x.0, x.1);
    }
    Authentic(scheme, public_, pairs, env);
    var p :| (env.payloadType, p) in pairs && Verify(scheme, env, public_) == Ok(Chars(p));
    var i :| 0 <= i < |log| && p == Octets(Serialise(codec, log[i]));
    CharsOfOctets(Serialise(codec, log[i]));
    if Faithful(codec) {
      forall t | Verify(scheme, env, public_) == Ok(Serialise(codec, t)) ensures t in log {
        SerialiseInjective(codec, t, log[i]);
      }
    }
  }

  // So whoever reads a verified payload as a statement reads one that was signed.
  lemma ReadersSeeSignedStatements(codec: Codec, scheme: Scheme, public_: seq<Byte>, log: seq<Statement>, env: Envelope)
    requires Faithful(codec) && forall i :: 0 <= i < |log| ==> IsOctets(Serialise(codec, log[i]))
    requires Unforgeable(scheme, public_,
               set i | 0 <= i < |log| :: Pae(IN_TOTO, Octets(Serialise(codec, log[i]))))
    requires Verify(scheme, env, public_).Ok?
    ensures var parsed := codec.parse(Verify(scheme, env, public_).value);
            parsed.Some? && ReadStatement(parsed.value).Some? && ReadStatement(parsed.value).value in log
  {
    hide Verify, StatementJson, ReadStatement, Unforgeable;
    OnlySignedStatements(codec, scheme, public_, log, env);
    var i :| 0 <= i < |log| && Verify(scheme, env, public_) == Ok(Serialise(codec, log[i]));
    assert codec.parse(Serialise(codec, log[i])) == Some(StatementJson(log[i]));
    StatementReadsBack(log[i]);
  }

  // Known answers of the encoding.
  lemma PaeKnownAnswers()
    ensures Pae("hello", Octets("world")) == "DSSEv1 5 hello 5 world"
    ensures Pae("type", []) == "DSSEv1 4 type 0 "
  {
    CharsOfOctets("world");
    OneDigit();
    hide Decimal, Octets, Chars;
    assert Chars([]) == "";
    assert PaeTail(Octets("world")) == "5 world" && PaeTail([]) == "0 ";
  }

  lemma OneDigit()
    ensures Decimal(5) == "5" && Decimal(4) == "4" && Decimal(0) == "0"
  {
  }
}
