/** Which keys a key-set document publishes, and which documents are refused, entry by entry. */
module KeyRules {
  import opened Wrappers
  import opened PyText
  import opened MediaTypes
  import opened KeySet

  /** A key offered for checking signatures: an asymmetric algorithm on the allowlist, and no declaration that
      points elsewhere. */
  predicate Offered(e: Entry, algorithms: seq<string>) {
    && e.Entry? && e.alg.Some? && e.alg.value in algorithms && Asymmetric(e.alg.value)
    && (e.use.None? || e.use == Some(Named("sig")))
    && (e.keyOps.None? || (e.keyOps.value.Operations? && "verify" in e.keyOps.value.names))
  }

  /** One that vouches under `kid`: it loads, and has 2048 bits at least if it is RSA. */
  predicate Signs(e: Entry, kid: string, algorithms: seq<string>) {
    && Offered(e, algorithms) && e.kid == Some(kid) && Strip(kid) != ""
    && e.loads && (IsRsa(e.alg.value) ==> e.rsaBits >= 2048)
  }

  predicate Asymmetric(alg: string) { alg == "EdDSA" || alg == "ES256" || alg == "ES512" || IsRsa(alg) }

  predicate IsRsa(alg: string) { alg == "PS256" || alg == "RS256" }

  lemma {:induction false} LoadersExactly(alg: string)
    ensures alg in LOADERS <==> Asymmetric(alg)
    ensures alg in LOADERS ==> (LOADERS[alg].Rsa? <==> IsRsa(alg))
  {
  }

  lemma {:induction false} UsableExactly(e: Entry, kid: string, algorithms: seq<string>)
    ensures UsableAs(e, kid, algorithms) <==> Signs(e, kid, algorithms)
  {
    if e.Entry? && e.alg.Some? {
      LoadersExactly(e.alg.value);
      UsableByAlg(e, kid, algorithms, e.alg.value in LOADERS, IsRsa(e.alg.value));
    }
  }

  lemma {:induction false} UsableByAlg(e: Entry, kid: string, algorithms: seq<string>, supported: bool, rsa: bool)
    requires e.Entry? && e.alg.Some? && supported == (e.alg.value in LOADERS) == Asymmetric(e.alg.value)
    requires rsa == IsRsa(e.alg.value) && (supported ==> (LOADERS[e.alg.value].Rsa? <==> rsa))
    ensures UsableAs(e, kid, algorithms) <==> Signs(e, kid, algorithms)
  {
  }

  /** Entry `i` is the first that signs under `kid`. */
  ghost predicate FirstAt(entries: seq<Entry>, i: nat, kid: string, algorithms: seq<string>) {
    && i < |entries| && Signs(entries[i], kid, algorithms)
    && forall j :: 0 <= j < i ==> !Signs(entries[j], kid, algorithms)
  }

  ghost predicate NoneSigns(entries: seq<Entry>, kid: string, algorithms: seq<string>) {
    forall i :: 0 <= i < |entries| ==> !Signs(entries[i], kid, algorithms)
  }

  lemma {:induction false} FirstUsableExactly(entries: seq<Entry>, kid: string, algorithms: seq<string>)
    ensures match FirstUsable(entries, kid, algorithms)
            case None => NoneSigns(entries, kid, algorithms)
            case Some(e) => exists i: nat :: FirstAt(entries, i, kid, algorithms) && entries[i] == e
  {
    if entries != [] {
      var n := |entries| - 1;
      FirstUsableExactly(entries[..n], kid, algorithms);
      UsableExactly(entries[n], kid, algorithms);
      assert forall i :: 0 <= i < n ==> entries[..n][i] == entries[i];
      match FirstUsable(entries[..n], kid, algorithms) {
        case None => assert Signs(entries[n], kid, algorithms) ==> FirstAt(entries, n, kid, algorithms);
        case Some(e) =>
          var i: nat :| FirstAt(entries[..n], i, kid, algorithms) && entries[..n][i] == e;
          assert FirstAt(entries, i, kid, algorithms);
      }
    }
  }

  /** What a document that is read publishes under a `kid`: the first entry that signs under it, and nothing
      if none does. */
  lemma {:induction false} PublishedSignsExactly(entries: seq<Entry>, algorithms: seq<string>, kid: string)
    requires CollectedAll(entries, algorithms).Ok?
    ensures var keys := CollectedAll(entries, algorithms).value;
            if kid in keys then
              exists i: nat :: FirstAt(entries, i, kid, algorithms)
                && keys[kid] == Jwk(kid, entries[i].alg.value, entries[i].material)
            else NoneSigns(entries, kid, algorithms)
  {
    var keys := CollectedAll(entries, algorithms).value;
    PublishesExactly(entries, algorithms);
    assert PublishesFirstUnder(entries, keys, kid, algorithms);
    FirstUsableExactly(entries, kid, algorithms);
  }

  /** An entry that spoils its whole document: no object, no `kid`, or no `alg`. */
  predicate Broken(e: Entry) {
    e.NotAnObject? || e.kid.None? || Strip(e.kid.value) == "" || e.alg.None? || e.alg.value == ""
  }

  /** A key that was wanted, not yet published, and would not load. */
  ghost predicate FailsToLoad(entries: seq<Entry>, i: nat, algorithms: seq<string>) {
    && i < |entries| && !Broken(entries[i]) && Offered(entries[i], algorithms) && !entries[i].loads
    && NoneSigns(entries[..i], entries[i].kid.value, algorithms)
  }

  ghost predicate Spoiled(entries: seq<Entry>, algorithms: seq<string>) {
    exists i :: 0 <= i < |entries| && (Broken(entries[i]) || FailsToLoad(entries, i, algorithms))
  }

  /** A document is refused exactly when some entry is broken or some wanted key does not load. */
  lemma {:induction false} RefusedExactly(entries: seq<Entry>, algorithms: seq<string>)
    ensures CollectedAll(entries, algorithms).Err? <==> Spoiled(entries, algorithms)
  {
    PublishesExactly(entries, algorithms);
    forall i | 0 <= i < |entries|
      ensures Broken(entries[i]) || FailsToLoad(entries, i, algorithms) <==>
        !(WellFormed(entries[i]) && (Loaded(entries, i, algorithms) ==> entries[i].loads))
    {
      SpoilsExactly(entries, i, algorithms);
    }
  }

  lemma {:induction false} SpoilsExactly(entries: seq<Entry>, i: nat, algorithms: seq<string>)
    requires i < |entries|
    ensures Broken(entries[i]) || FailsToLoad(entries, i, algorithms) <==>
      !(WellFormed(entries[i]) && (Loaded(entries, i, algorithms) ==> entries[i].loads))
  {
    var e := entries[i];
    BrokenExactly(e);
    if WellFormed(e) {
      OfferedExactly(e, algorithms);
      FirstUsableExactly(entries[..i], e.kid.value, algorithms);
    }
  }

  lemma {:induction false} BrokenExactly(e: Entry)
    ensures WellFormed(e) <==> !Broken(e)
  {
  }

  lemma {:induction false} OfferedExactly(e: Entry, algorithms: seq<string>)
    requires WellFormed(e)
    ensures Wanted(e, algorithms) && ForVerifying(e) <==> Offered(e, algorithms)
  {
    LoadersExactly(e.alg.value);
  }

  ghost predicate SaysKeySet(contentType: string) {
    Declares(contentType, "application/json") || Declares(contentType, "application/jwk-set+json")
  }

  /** An answer yields keys exactly when it is a `200` in one of the two media types carrying a list of no more
      than the allowed keys that nothing spoils; they are then what that list publishes. */
  lemma {:induction false} ParsedExactly(answer: Answer, maxKeys: nat, algorithms: seq<string>)
    ensures Parsed(answer, maxKeys, algorithms).Ok? <==>
      && answer.status == 200 && SaysKeySet(answer.contentType)
      && answer.document.Keys? && |answer.document.entries| <= maxKeys
      && !Spoiled(answer.document.entries, algorithms)
    ensures Parsed(answer, maxKeys, algorithms).Ok? ==>
      Parsed(answer, maxKeys, algorithms) == CollectedAll(answer.document.entries, algorithms)
  {
    MediaExactly(answer.contentType);
    if answer.document.Keys? { RefusedExactly(answer.document.entries, algorithms); }
  }

  lemma {:induction false} MediaExactly(contentType: string)
    ensures JsonMedia(contentType) <==> SaysKeySet(contentType)
  {
    var json, jwks := "application/json", "application/jwk-set+json";
    assert Bare(json) && Bare(jwks);
    MediaTypeExactly(contentType, json);
    MediaTypeExactly(contentType, jwks);
  }
}
