/** Catalogue records and the identifiers hashed from their fields. */
module CatalogueIdentity {
  import opened Wrappers

  /** The value of a hash. */
  datatype Digest = Digest(value: nat)

  /** A text that is not blank. */
  datatype Text = Text(id: nat)

  datatype InstrumentKind = UnderlyingInstrument | FuturesContract | OptionContract

  datatype TradingStatus = Active | Suspended | Expired | Delisted

  /** An end, when there is one, lies after its start. */
  predicate Ends(start: int, end: Option<int>) {
    end.Some? ==> end.value > start
  }

  predicate Within(start: int, t: int, end: Option<int>) {
    start <= t && (end.Some? ==> t < end.value)
  }

  /** So some time is within. */
  lemma EndsExactlyWhen(start: int, end: Option<int>)
    ensures Ends(start, end) <==> exists t :: Within(start, t, end)
  {
    assert Ends(start, end) <==> Within(start, start, end);
  }

  datatype CatalogueVersion = CatalogueVersion(
    provider: Text,
    contentHash: Digest,
    schemaVersion: int,
    effectiveFrom: int,
    effectiveUntil: Option<int>,
    publishedAt: Option<int>,
    recordedAt: int,
    rowCount: int)
  {
    predicate Valid() {
      schemaVersion > 0 && rowCount >= 0 && Ends(effectiveFrom, effectiveUntil)
    }
  }

  /** The three version classes differ in their kind and in whose identity they carry. */
  datatype ContractVersion = ContractVersion(
    kind: InstrumentKind,
    identity: Digest,
    validFrom: int,
    validUntil: Option<int>,
    lotSize: int,
    tickSize: real,
    displaySymbol: Text,
    status: TradingStatus,
    catalogueVersionId: Digest,
    recordedAt: int,
    supersededAt: Option<int>)
  {
    predicate Valid() {
      && Ends(validFrom, validUntil) && Ends(recordedAt, supersededAt)
      && lotSize > 0 && tickSize > 0.0
    }
  }

  datatype Mapping = Mapping(
    provider: Text,
    key: string,
    contractVersionId: Digest,
    payloadHash: Digest,
    sourceRow: Option<Digest>,
    effectiveFrom: int,
    effectiveUntil: Option<int>,
    recordedAt: int,
    supersededAt: Option<int>)
  {
    predicate Valid() {
      Ends(effectiveFrom, effectiveUntil) && Ends(recordedAt, supersededAt)
    }
  }

  /** What is hashed to identify a record. */
  datatype Fields =
    | CatalogueFields(
        provider: Text, contentHash: Digest, schemaVersion: int, effectiveFrom: int,
        effectiveUntil: Option<int>, publishedAt: Option<int>, rowCount: int)
    | VersionFields(
        kind: InstrumentKind, identity: Digest, validFrom: int, validUntil: Option<int>, lotSize: int,
        tickSize: real, displaySymbol: Text, status: TradingStatus, catalogueVersionId: Digest)
    | MappingFields(
        mappingProvider: Text, key: string, contractVersionId: Digest, payloadHash: Digest,
        sourceRow: Option<Digest>, mappedFrom: int, mappedUntil: Option<int>)
    | SourceRowFields(rowProvider: Text, profile: Text, rawHash: Digest)

  /** Any hash; nothing is assumed of it. */
  type Hash = Fields -> Digest

  function CatalogueVersionFields(catalogue: CatalogueVersion): Fields {
    CatalogueFields(
      catalogue.provider, catalogue.contentHash, catalogue.schemaVersion, catalogue.effectiveFrom,
      catalogue.effectiveUntil, catalogue.publishedAt, catalogue.rowCount)
  }

  function ContractVersionFields(version: ContractVersion): Fields {
    VersionFields(
      version.kind, version.identity, version.validFrom, version.validUntil, version.lotSize, version.tickSize,
      version.displaySymbol, version.status, version.catalogueVersionId)
  }

  function ProviderMappingFields(mapping: Mapping): Fields {
    MappingFields(
      mapping.provider, mapping.key, mapping.contractVersionId, mapping.payloadHash, mapping.sourceRow,
      mapping.effectiveFrom, mapping.effectiveUntil)
  }

  function CatalogueVersionId(hash: Hash, catalogue: CatalogueVersion): Digest {
    hash(CatalogueVersionFields(catalogue))
  }

  function VersionId(hash: Hash, version: ContractVersion): Digest {
    hash(ContractVersionFields(version))
  }

  function MappingId(hash: Hash, mapping: Mapping): Digest {
    hash(ProviderMappingFields(mapping))
  }

  // ---- What identifies a record ----

  /** The hash tells two inputs apart. */
  predicate Separates(hash: Hash, a: Fields, b: Fields) {
    a != b ==> hash(a) != hash(b)
  }

  /** Two catalogues have one identifier exactly when they differ in nothing but the time of recording. */
  lemma CatalogueIdentifiedUpToRecording(hash: Hash, a: CatalogueVersion, b: CatalogueVersion)
    requires Separates(hash, CatalogueVersionFields(a), CatalogueVersionFields(b))
    ensures CatalogueVersionId(hash, a) == CatalogueVersionId(hash, b) <==> a.(recordedAt := b.recordedAt) == b
  {
    assert a.(recordedAt := b.recordedAt) == b ==> CatalogueVersionFields(a) == CatalogueVersionFields(b);
  }

  /** Two versions have one identifier exactly when they differ in nothing but their system time. */
  lemma VersionIdentifiedUpToRecording(hash: Hash, a: ContractVersion, b: ContractVersion)
    requires Separates(hash, ContractVersionFields(a), ContractVersionFields(b))
    ensures VersionId(hash, a) == VersionId(hash, b)
            <==> a.(recordedAt := b.recordedAt, supersededAt := b.supersededAt) == b
  {
    assert a.(recordedAt := b.recordedAt, supersededAt := b.supersededAt) == b ==>
        ContractVersionFields(a) == ContractVersionFields(b);
  }

  /** Two mappings have one identifier exactly when they differ in nothing but their system time. */
  lemma MappingIdentifiedUpToRecording(hash: Hash, a: Mapping, b: Mapping)
    requires Separates(hash, ProviderMappingFields(a), ProviderMappingFields(b))
    ensures MappingId(hash, a) == MappingId(hash, b)
            <==> a.(recordedAt := b.recordedAt, supersededAt := b.supersededAt) == b
  {
    assert a.(recordedAt := b.recordedAt, supersededAt := b.supersededAt) == b ==>
        ProviderMappingFields(a) == ProviderMappingFields(b);
  }
}
