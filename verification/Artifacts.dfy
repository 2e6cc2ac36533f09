/** Identities and durable records of managed artifacts. */
module Artifacts {
  import opened Text

  newtype Byte = x: int | 0 <= x < 256
  type Bytes = seq<Byte>

  /** Lowercase hexadecimal SHA-256; an artifact's identity is the digest of its bytes. */
  type Digest = string

  const MAX_EPOCH: nat := 0x7FFF_FFFF_FFFF_FFFF

  predicate IsDigest(value: string) {
    |value| == 64 && forall i :: 0 <= i < 64 ==> '0' <= value[i] <= '9' || 'a' <= value[i] <= 'f'
  }

  /** `metadata` stands for the origin, format, family and licence facts, and
      `metadataValid` for the outcome of their bounds checks. */
  datatype Manifest = Manifest(
    artifactId: Digest, artifactDigest: Digest, byteSize: nat, metadata: string, metadataValid: bool)

  datatype Installed = Installed(
    artifactId: Digest, artifactDigest: Digest, byteSize: nat, storageKey: string)

  /** One installed generation. */
  datatype Installation = Installation(installed: Installed, epoch: nat)

  datatype Phase = Prepared | Completed

  datatype Removal = Removal(selection: Installation, phase: Phase)

  predicate ValidManifest(m: Manifest) {
    IsDigest(m.artifactDigest) && m.artifactId == m.artifactDigest && m.byteSize != 0 && m.metadataValid
  }

  predicate ValidSegment(segment: string) {
    && segment != "" && segment != "." && segment != ".."
    && forall i :: 0 <= i < |segment| ==>
                     var ch := segment[i];
                     '0' <= ch <= '9' || 'a' <= ch <= 'z' || 'A' <= ch <= 'Z' || ch == '-' || ch == '_' || ch == '.'
  }

  predicate ValidStorageKey(key: string) {
    && 0 < |key| <= 128
    && var segments := Split(key, '/');
       forall i :: 0 <= i < |segments| ==> ValidSegment(segments[i])
  }

  predicate ValidInstalled(i: Installed) {
    IsDigest(i.artifactDigest) && i.byteSize != 0 && ValidStorageKey(i.storageKey) && i.artifactId == i.artifactDigest
  }

  function ManagedStorageKey(digest: Digest): string {
    "artifacts/" + digest
  }

  function InstalledFrom(m: Manifest): Installed {
    Installed(m.artifactId, m.artifactDigest, m.byteSize, ManagedStorageKey(m.artifactDigest))
  }

  /** What removal and leasing demand of a selection before touching storage. */
  predicate ValidSelection(selection: Installation) {
    && ValidInstalled(selection.installed)
    && selection.epoch != 0
    && selection.installed.storageKey == ManagedStorageKey(selection.installed.artifactDigest)
  }

  /** The record every import and reconciliation writes is one the store accepts. */
  lemma InstalledFromIsValid(m: Manifest)
    requires ValidManifest(m)
    ensures ValidInstalled(InstalledFrom(m))
    ensures ValidSelection(Installation(InstalledFrom(m), 1))
  {
    var digest := m.artifactDigest;
    assert ManagedStorageKey(digest) == "artifacts" + ['/'] + digest;
    SplitCons("artifacts", digest, '/');
    SplitOne(digest, '/');
    assert ValidSegment(digest) by {
      assert |digest| == 64;
    }
  }
}
