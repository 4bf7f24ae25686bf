/**
 * What the cache decision of `get_computed_config` promises: a cached
 * result is used exactly when its stored 8 bytes equal the first 8 bytes of
 * the fresh digest, a freshly compiled result carries those 8 bytes, and so
 * a stored result is found again the next time the same text is read.
 */
module Cache {
  import opened Wrappers
  import opened Common
  import opened ConfigParse
  import opened Icons
  import opened Compute

  /** Whatever the cache held, a successful result carries the first 8
      bytes of the digest of the text just read. */
  lemma ResultHash(src: Source, cached: Option<ComputedConfig>, home: HomeDir, defaults: Frame, fs: Listing)
    requires |src.digest| == 32
    ensures Gate(Some(src), cached, home, defaults, fs).Ok? ==>
              |Gate(Some(src), cached, home, defaults, fs).value.hash| == 8 &&
              Gate(Some(src), cached, home, defaults, fs).value.hash == src.digest[..8]
  {
  }

  /** A cached result whose stored bytes differ from the digest prefix is
      ignored: the outcome is the one with no cache at all, a fresh
      compilation. */
  lemma StaleIgnored(src: Source, cached: ComputedConfig, home: HomeDir, defaults: Frame, fs: Listing)
    requires |src.digest| == 32
    requires cached.hash != src.digest[..8]
    ensures Gate(Some(src), Some(cached), home, defaults, fs) == Gate(Some(src), None, home, defaults, fs)
    ensures Gate(Some(src), None, home, defaults, fs) == ConfigSpec(src.doc, home, src.digest, defaults, fs)
  {
  }

  /** A matching cached result is returned as it is, without looking at the
      document, the home directory, the default frame or the file system. */
  lemma HitReturned(src: Source, cached: ComputedConfig, home: HomeDir, defaults: Frame, fs: Listing)
    requires |src.digest| == 32
    requires cached.hash == src.digest[..8]
    ensures Gate(Some(src), Some(cached), home, defaults, fs) == Ok(cached)
  {
  }

  /** Storing what the gate returned and reading the same text again hits
      the cache, even when the home directory, the default frame or the file
      system have changed in between. */
  lemma StoredIsReused(src: Source, cached: Option<ComputedConfig>, home: HomeDir, defaults: Frame, fs: Listing,
                       home': HomeDir, defaults': Frame, fs': Listing)
    requires |src.digest| == 32
    requires Gate(Some(src), cached, home, defaults, fs).Ok?
    ensures Gate(Some(src), Some(Gate(Some(src), cached, home, defaults, fs).value), home', defaults', fs') ==
            Gate(Some(src), cached, home, defaults, fs)
  {
    ResultHash(src, cached, home, defaults, fs);
  }

  /** An unreadable configuration file fails whatever the cache holds. */
  lemma UnreadableFails(cached: Option<ComputedConfig>, home: HomeDir, defaults: Frame, fs: Listing)
    ensures Gate(None, cached, home, defaults, fs) == Err(ReadFailed)
  {
  }
}
