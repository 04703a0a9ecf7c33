/** One key-set document down to the keys it publishes for signature verification. */
module KeySet {
  import opened Wrappers
  import opened PyText
  import opened MediaTypes

  const MIN_RSA_KEY_BITS := 2048

  datatype Family = Okp | Ec | Rsa

  /** No symmetric algorithm has an entry. */
  const LOADERS: map<string, Family> :=
    map["EdDSA" := Okp, "ES256" := Ec, "ES512" := Ec, "PS256" := Rsa, "RS256" := Rsa]

  datatype Use = NotAString | Named(name: string)

  datatype KeyOps = NotAList | Operations(names: seq<string>)

  /** One element of `keys`. A `kid` or `alg` absent or not a string is `None`; `use` and `keyOps` are `None`
      only when absent, since one present in any other shape points elsewhere. `loads` and `rsaBits` are what
      the library's loader would make of it. */
  datatype Entry =
    | NotAnObject
    | Entry(kid: Option<string>, alg: Option<string>, use: Option<Use>, keyOps: Option<KeyOps>,
            loads: bool, rsaBits: int, material: nat)

  datatype Jwk = Jwk(kid: string, algorithm: string, material: nat)

  datatype Document = NotJson | NotAJsonObject | KeysNotAList | Keys(entries: seq<Entry>)

  datatype Answer = Answer(status: int, contentType: string, document: Document)

  type Published = map<string, Jwk>

  predicate WellFormed(e: Entry) {
    e.Entry? && e.kid.Some? && Strip(e.kid.value) != "" && e.alg.Some? && e.alg.value != ""
  }

  predicate ForVerifying(e: Entry)
    requires e.Entry?
  {
    && (e.use.Some? ==> e.use.value == Named("sig"))
    && (e.keyOps.Some? ==> e.keyOps.value.Operations? && "verify" in e.keyOps.value.names)
  }

  predicate Wanted(e: Entry, algorithms: seq<string>)
    requires WellFormed(e)
  {
    e.alg.value in LOADERS && e.alg.value in algorithms
  }

  predicate StrongEnough(e: Entry)
    requires WellFormed(e) && e.alg.value in LOADERS
  {
    LOADERS[e.alg.value].Rsa? ==> e.rsaBits >= MIN_RSA_KEY_BITS
  }

  /** One entry onto the keys so far: dropped, kept, or the whole document refused. */
  function Collected(e: Entry, keys: Published, algorithms: seq<string>): Result<Published, ()> {
    if !WellFormed(e) then Err(())
    else if !Wanted(e, algorithms) || e.kid.value in keys || !ForVerifying(e) then Ok(keys)
    else if !e.loads then Err(())
    else if !StrongEnough(e) then Ok(keys)
    else Ok(keys[e.kid.value := Jwk(e.kid.value, e.alg.value, e.material)])
  }

  function CollectedAll(entries: seq<Entry>, algorithms: seq<string>): Result<Published, ()> {
    if entries == [] then Ok(map[])
    else match CollectedAll(entries[..|entries| - 1], algorithms)
      case Err(e) => Err(e)
      case Ok(keys) => Collected(entries[|entries| - 1], keys, algorithms)
  }

  predicate JsonMedia(contentType: string) {
    MediaType(contentType) in {"application/json", "application/jwk-set+json"}
  }

  function Parsed(answer: Answer, maxKeys: nat, algorithms: seq<string>): Result<Published, ()> {
    if answer.status != 200 || !JsonMedia(answer.contentType) || !answer.document.Keys? then Err(())
    else if |answer.document.entries| > maxKeys then Err(())
    else CollectedAll(answer.document.entries, algorithms)
  }

  /** The loop that fills the dictionary, stopping at the first entry that refuses the document. */
  method CollectAll(entries: seq<Entry>, algorithms: seq<string>) returns (r: Result<Published, ()>)
    ensures r == CollectedAll(entries, algorithms)
  {
    var keys: Published := map[];
    for i := 0 to |entries|
      invariant CollectedAll(entries[..i], algorithms) == Ok(keys)
    {
      assert entries[..i + 1][..i] == entries[..i];
      var next := Collected(entries[i], keys, algorithms);
      if next.Err? {
        RefusalIsFinal(entries, i + 1, algorithms);
        return next;
      }
      keys := next.value;
    }
    assert entries[..|entries|] == entries;
    return Ok(keys);
  }

  lemma {:induction false} RefusalIsFinal(entries: seq<Entry>, n: nat, algorithms: seq<string>)
    requires n <= |entries| && CollectedAll(entries[..n], algorithms).Err?
    ensures CollectedAll(entries, algorithms) == CollectedAll(entries[..n], algorithms)
    decreases |entries|
  {
    if n == |entries| {
      assert entries[..n] == entries;
    } else {
      var before := entries[..|entries| - 1];
      assert before[..n] == entries[..n];
      RefusalIsFinal(before, n, algorithms);
    }
  }

  // ---- what is published

  /** An entry that would be kept on its own. */
  predicate Usable(e: Entry, algorithms: seq<string>) {
    WellFormed(e) && Wanted(e, algorithms) && ForVerifying(e) && e.loads && StrongEnough(e)
  }

  predicate UsableAs(e: Entry, kid: string, algorithms: seq<string>) {
    Usable(e, algorithms) && e.kid.value == kid
  }

  /** The first usable entry under `kid`. */
  function FirstUsable(entries: seq<Entry>, kid: string, algorithms: seq<string>): (e: Option<Entry>)
    ensures e.Some? ==> UsableAs(e.value, kid, algorithms)
  {
    if entries == [] then None
    else
      var earlier, last := FirstUsable(entries[..|entries| - 1], kid, algorithms), entries[|entries| - 1];
      if earlier.Some? then earlier else if UsableAs(last, kid, algorithms) then Some(last) else None
  }

  /** The loader is run on an entry only when no earlier usable entry took its `kid`. */
  predicate Loaded(entries: seq<Entry>, i: nat, algorithms: seq<string>)
    requires i < |entries| && WellFormed(entries[i])
  {
    Wanted(entries[i], algorithms) && ForVerifying(entries[i])
    && FirstUsable(entries[..i], entries[i].kid.value, algorithms).None?
  }

  ghost predicate Acceptable(entries: seq<Entry>, algorithms: seq<string>) {
    forall i :: 0 <= i < |entries| ==>
      WellFormed(entries[i]) && (Loaded(entries, i, algorithms) ==> entries[i].loads)
  }

  ghost predicate PublishesFirst(entries: seq<Entry>, keys: Published, algorithms: seq<string>) {
    forall kid :: PublishesFirstUnder(entries, keys, kid, algorithms)
  }

  ghost predicate PublishesFirstUnder(entries: seq<Entry>, keys: Published, kid: string, algorithms: seq<string>) {
    match FirstUsable(entries, kid, algorithms)
    case None => kid !in keys
    case Some(e) => kid in keys && keys[kid] == Jwk(kid, e.alg.value, e.material)
  }

  /** A document is read exactly when every entry is well formed and every entry the loader is run on
      loads; what it publishes under each `kid` is then the first usable entry, and nothing else. */
  lemma {:induction false} PublishesExactly(entries: seq<Entry>, algorithms: seq<string>)
    ensures CollectedAll(entries, algorithms).Ok? <==> Acceptable(entries, algorithms)
    ensures CollectedAll(entries, algorithms).Ok? ==>
      PublishesFirst(entries, CollectedAll(entries, algorithms).value, algorithms)
  {
    if entries != [] {
      var n := |entries| - 1;
      PublishesExactly(entries[..n], algorithms);
      AcceptableNext(entries, algorithms);
      if CollectedAll(entries[..n], algorithms).Ok? {
        PublishesNext(entries, CollectedAll(entries[..n], algorithms).value, algorithms);
      }
    }
  }

  lemma {:induction false} PublishesNext(entries: seq<Entry>, keys: Published, algorithms: seq<string>)
    requires entries != []
    requires PublishesFirst(entries[..|entries| - 1], keys, algorithms)
    ensures var last := entries[|entries| - 1]; var next := Collected(last, keys, algorithms);
            && (next.Ok? <==> WellFormed(last) && (Loaded(entries, |entries| - 1, algorithms) ==> last.loads))
            && (next.Ok? ==> PublishesFirst(entries, next.value, algorithms))
  {
    var n, last := |entries| - 1, entries[|entries| - 1];
    var next := Collected(last, keys, algorithms);
    if WellFormed(last) {
      assert PublishesFirstUnder(entries[..n], keys, last.kid.value, algorithms);
    }
    if next.Ok? {
      forall kid ensures PublishesFirstUnder(entries, next.value, kid, algorithms) {
        assert PublishesFirstUnder(entries[..n], keys, kid, algorithms);
        PublishesNextUnder(entries, keys, kid, algorithms);
      }
    }
  }

  lemma {:induction false} PublishesNextUnder(
      entries: seq<Entry>, keys: Published, kid: string, algorithms: seq<string>)
    requires entries != [] && PublishesFirstUnder(entries[..|entries| - 1], keys, kid, algorithms)
    requires Collected(entries[|entries| - 1], keys, algorithms).Ok?
    ensures PublishesFirstUnder(entries, Collected(entries[|entries| - 1], keys, algorithms).value, kid, algorithms)
  {
    var last := entries[|entries| - 1];
    assert WellFormed(last);
    if last.kid.value != kid {
      assert !UsableAs(last, kid, algorithms);
    } else if kid in keys {
      assert FirstUsable(entries, kid, algorithms) == FirstUsable(entries[..|entries| - 1], kid, algorithms);
    } else {
      assert FirstUsable(entries, kid, algorithms) == if UsableAs(last, kid, algorithms) then Some(last) else None;
    }
  }

  lemma {:induction false} AcceptableNext(entries: seq<Entry>, algorithms: seq<string>)
    requires entries != []
    ensures var n := |entries| - 1;
            Acceptable(entries, algorithms) <==>
              && Acceptable(entries[..n], algorithms) && WellFormed(entries[n])
              && (Loaded(entries, n, algorithms) ==> entries[n].loads)
  {
    var n := |entries| - 1;
    forall i | 0 <= i < n ensures entries[..n][i] == entries[i] && entries[..n][..i] == entries[..i] {}
  }

  ghost predicate Trusted(keys: Published, algorithms: seq<string>) {
    forall kid :: kid in keys ==>
      keys[kid].kid == kid && keys[kid].algorithm in algorithms && keys[kid].algorithm in LOADERS
  }

  /** Every published key is filed under its own `kid` with an allowlisted asymmetric algorithm. */
  lemma {:induction false} PublishedAreTrusted(entries: seq<Entry>, algorithms: seq<string>)
    ensures CollectedAll(entries, algorithms).Ok? ==> Trusted(CollectedAll(entries, algorithms).value, algorithms)
  {
    if entries != [] {
      var n := |entries| - 1;
      PublishedAreTrusted(entries[..n], algorithms);
      if CollectedAll(entries[..n], algorithms).Ok? {
        CollectedKeepsTrust(entries[n], CollectedAll(entries[..n], algorithms).value, algorithms);
      }
    }
  }

  lemma {:induction false} CollectedKeepsTrust(e: Entry, keys: Published, algorithms: seq<string>)
    requires Trusted(keys, algorithms)
    ensures Collected(e, keys, algorithms).Ok? ==> Trusted(Collected(e, keys, algorithms).value, algorithms)
  {
  }
}
