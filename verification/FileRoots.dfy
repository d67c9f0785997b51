/**
  The maps that cross the store's boundary are shared heap objects; a root owns
  one such map and never hands it out.
 */
module FileRoots {

  /** A mutable map from file names to contents. */
  class FileMap {
    var entries: map<string, string>

    constructor (entries: map<string, string>)
      ensures this.entries == entries
    {
      this.entries := entries;
    }
  }

  /** An immutable file set with an identity of its own; `seal` marks a root made here. */
  class MapRoot {
    const files: FileMap
    var seal: MapRoot?

    constructor (source: FileMap?)
      ensures fresh(files) && seal == this
      ensures files.entries == if source == null then map[] else source.entries
    {
      var owned := map[];
      if source != null {
        owned := source.entries;
      }
      files := new FileMap(owned);
      seal := this;
    }
  }

  /** Keeps the previous root while its contents are unchanged. */
  method RetainRoot(previous: MapRoot?, source: FileMap) returns (root: MapRoot)
    ensures root.seal == root && root.files.entries == source.entries
    ensures if previous != null && previous.seal == previous && previous.files.entries == source.entries
            then root == previous
            else fresh(root) && fresh(root.files)
  {
    if previous != null && previous.seal == previous && previous.files.entries == source.entries {
      return previous;
    }
    root := new MapRoot(source);
  }
}
