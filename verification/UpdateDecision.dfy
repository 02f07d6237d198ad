/** The decision whether an update is available (`_isNewerVersionAvailable`). */
module UpdateDecisions {
  import opened ManifestEntries

  /** `std::string::operator<`: character by character, a proper prefix first. */
  predicate Less(a: string, b: string) {
    b != "" && (a == "" || a[0] < b[0] || (a[0] == b[0] && Less(a[1..], b[1..])))
  }

  predicate IsRemoteVersionNewerThanLocal(localVersion: string, remoteVersion: string) {
    Less(localVersion, remoteVersion)
  }

  lemma {:induction false} LessIsIrreflexive(a: string)
    ensures !Less(a, a)
    decreases |a|
  {
    if a != "" {
      LessIsIrreflexive(a[1..]);
    }
  }

  lemma {:induction false} LessIsTotal(a: string, b: string)
    ensures a == b || Less(a, b) || Less(b, a)
    decreases |a|
  {
    if a != "" && b != "" {
      LessIsTotal(a[1..], b[1..]);
      assert a == [a[0]] + a[1..] && b == [b[0]] + b[1..];
    }
  }

  lemma {:induction false} LessIsTransitive(a: string, b: string, c: string)
    requires Less(a, b) && Less(b, c)
    ensures Less(a, c)
    decreases |a|
  {
    if a != "" && a[0] == b[0] == c[0] {
      LessIsTransitive(a[1..], b[1..], c[1..]);
    }
  }

  /** Nothing to update: the same components on both sides, none older here than there. */
  ghost predicate UpToDate(local: map<string, string>, remote: map<string, string>) {
    local.Keys == remote.Keys && forall c :: c in local ==> !Less(local[c], remote[c])
  }

  /** The comparison loop. Components are taken in any order; each one that is up to date is erased from the remote map,
      so whatever is left there at the end is new. */
  method CompareComponents(localComponents: map<string, string>, remoteComponents: map<string, string>)
    returns (newer: bool)
    ensures newer <==> !UpToDate(localComponents, remoteComponents)
  {
    hide Less;
    var remoteVersions, todo := remoteComponents, localComponents.Keys;
    while todo != {}
      invariant todo <= localComponents.Keys
      invariant forall c :: c in localComponents && c !in todo ==>
        c in remoteComponents && !Less(localComponents[c], remoteComponents[c])
      invariant forall c :: c in remoteVersions <==> c in remoteComponents && (c in todo || c !in localComponents)
      invariant forall c :: c in remoteVersions ==> remoteVersions[c] == remoteComponents[c]
      decreases |todo|
    {
      var component :| component in todo;
      if component !in remoteVersions {
        return true;
      }
      var isNewer := IsRemoteVersionNewerThanLocal(localComponents[component], remoteVersions[component]);
      if isNewer {
        return true;
      }
      todo := todo - {component};
      remoteVersions := remoteVersions - {component};
    }
    newer := |remoteVersions| > 0;
    if newer {
      var firstComponent :| firstComponent in remoteVersions;
    }
  }

  /** `_isNewerVersionAvailable`, given the two raw manifests (empty when there is none). */
  method IsNewerVersionAvailable(localRaw: string, remoteRaw: string) returns (newer: bool)
    ensures newer <==>
      && ExtractVersions(localRaw) != map[] && ExtractVersions(remoteRaw) != map[]
      && !UpToDate(ExtractVersions(localRaw), ExtractVersions(remoteRaw))
  {
    if localRaw == "" {
      NoManifestNoVersions();
      return false;
    }
    var localComponents := ExtractVersionsFromManifest(localRaw);
    if |localComponents| == 0 {
      return false;
    }
    if remoteRaw == "" {
      NoManifestNoVersions();
      return false;
    }
    var remoteVersions := ExtractVersionsFromManifest(remoteRaw);
    if |remoteVersions| == 0 {
      return false;
    }
    newer := CompareComponents(localComponents, remoteVersions);
  }

  lemma NoManifestNoVersions()
    ensures ExtractVersions("") == map[]
  {
    TailHasNothing("");
  }

  /** Two installations that each find the other up to date carry the same components in the same versions. */
  lemma MutuallyUpToDateIsEqual(local: map<string, string>, remote: map<string, string>)
    ensures UpToDate(local, remote) && UpToDate(remote, local) <==> local == remote
  {
    if UpToDate(local, remote) && UpToDate(remote, local) {
      forall c | c in local ensures local[c] == remote[c] {
        LessIsTotal(local[c], remote[c]);
      }
    }
    if local == remote {
      forall c | c in local ensures !Less(local[c], remote[c]) {
        LessIsIrreflexive(local[c]);
      }
    }
  }

  /** One change to what both sides had: a component that is new or gone always calls for an update, another version
      of a component does exactly if it does not count as older. */
  lemma UpdateAfterOneChange(m: map<string, string>, component: string, version: string)
    ensures component !in m ==> !UpToDate(m, m[component := version])
    ensures component in m ==> !UpToDate(m, m - {component})
    ensures component in m && version != m[component] ==>
      (UpToDate(m, m[component := version]) <==> Less(version, m[component]))
  {
    hide Less;
    var changed := m[component := version];
    if component !in m {
      assert component in changed.Keys;
    } else {
      assert component !in (m - {component}).Keys;
      assert changed.Keys == m.Keys;
      forall c | c in m && c != component ensures !Less(m[c], changed[c]) {
        LessIsIrreflexive(m[c]);
      }
      LessIsTotal(m[component], version);
      if Less(m[component], version) && Less(version, m[component]) {
        LessIsTransitive(version, m[component], version);
        LessIsIrreflexive(version);
      }
    }
  }

  /** Updating never goes round in circles: being up to date is transitive. */
  lemma UpToDateIsTransitive(a: map<string, string>, b: map<string, string>, c: map<string, string>)
    requires UpToDate(a, b) && UpToDate(b, c)
    ensures UpToDate(a, c)
  {
    forall k | k in a ensures !Less(a[k], c[k]) {
      LessIsTotal(a[k], b[k]);
      LessIsTotal(b[k], c[k]);
      if Less(a[k], c[k]) {
        if a[k] != b[k] {
          LessIsTransitive(b[k], a[k], c[k]);
        }
      }
    }
  }
}
