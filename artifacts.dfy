/**
 * The installer artifacts: download URLs built from a template by placeholder
 * substitution, and the name the downloader gives the downloaded file.
 */
module Artifacts {
  import opened Strings

  const VersionPlaceholder := "%version"
  const ArchPlaceholder := "%arch"

  /** "https://github.com/netbirdio/netbird/releases/download/v": where every
      installer is published, under the tag `v<version>`. */
  const ReleasesBase := "https://github.com/" + "netbirdio/netbird/" + "releases/download/v"

  /** The URL of an installer: every `%version` in the template replaced by
      the target version, then every `%arch` in the result by the architecture. */
  function ExpandUrl(template: string, version: string, arch: string): (url: string)
    ensures '%' !in template ==> url == template
  {
    var url := ReplaceAll(ReplaceAll(template, VersionPlaceholder, version), ArchPlaceholder, arch);
    assert '%' !in template ==> url == template by {
      if '%' !in template {
        ReplaceAllAbsent(template, VersionPlaceholder, version);
        ReplaceAllAbsent(template, ArchPlaceholder, arch);
      }
    }
    url
  }

  /** The shape every installer URL template has: literal pieces around two
      `%version` placeholders and one `%arch`. */
  function Template(l0: string, l1: string, l2: string, l3: string): string {
    l0 + (VersionPlaceholder + (l1 + (VersionPlaceholder + (l2 + (ArchPlaceholder + l3)))))
  }

  /** A template of that shape, with no `%` in its literal pieces, expands to
      the pieces with the version and architecture in place, as long as the
      version has no `%` of its own. */
  lemma ExpandTemplate(l0: string, l1: string, l2: string, l3: string, version: string, arch: string)
    requires '%' !in l0 && '%' !in l1 && '%' !in l2 && '%' !in l3 && '%' !in version
    ensures ExpandUrl(Template(l0, l1, l2, l3), version, arch)
      == l0 + (version + (l1 + (version + (l2 + (arch + l3)))))
  {
    var a := ArchPlaceholder;
    var lead := l0 + (version + (l1 + (version + l2)));
    ExpandVersionPass(l0, l1, l2, l3, version);
    Regroup(l0, version, l1, l2, a + l3);
    ReplaceOnce(lead, l3, a, arch);
    ReplaceAllAbsent(l3, a, arch);
    Regroup(l0, version, l1, l2, arch + l3);
  }

  /** The `%version` pass of an expansion fills in both version slots and
      leaves `%arch` in place. */
  lemma ExpandVersionPass(l0: string, l1: string, l2: string, l3: string, version: string)
    requires '%' !in l0 && '%' !in l1 && '%' !in l2 && '%' !in l3
    ensures ReplaceAll(Template(l0, l1, l2, l3), VersionPlaceholder, version)
      == l0 + (version + (l1 + (version + (l2 + (ArchPlaceholder + l3)))))
  {
    var v, a := VersionPlaceholder, ArchPlaceholder;
    var r2 := l2 + (a + l3);
    var r1 := l1 + (v + r2);
    assert ReplaceAll(r2, v, version) == r2 by {
      ArchSurvivesVersionPass(l3, version);
      ReplaceAllAbsentPrefix(l2, a + l3, v, version);
    }
    ReplaceOnce(l1, r2, v, version);
    ReplaceOnce(l0, r1, v, version);
  }

  lemma Regroup(l0: string, version: string, l1: string, l2: string, x: string)
    ensures l0 + (version + (l1 + (version + (l2 + x)))) == (l0 + (version + (l1 + (version + l2)))) + x
  {
  }

  /** The last literal piece of a template survives expansion, whatever the
      version and architecture, when no placeholder can reach into it. */
  lemma ExpandTemplateEnding(l0: string, l1: string, l2: string, l3: string, version: string, arch: string)
    requires l3 != [] && '%' !in l3 && l3[0] !in VersionPlaceholder && l3[0] !in ArchPlaceholder
    ensures var url := ExpandUrl(Template(l0, l1, l2, l3), version, arch);
      |url| >= |l3| && url[|url| - |l3|..] == l3
  {
    var v, a := VersionPlaceholder, ArchPlaceholder;
    var head := l0 + (v + (l1 + (v + (l2 + a))));
    assert Template(l0, l1, l2, l3) == head + l3 by {
      calc {
        l2 + (a + l3);
        (l2 + a) + l3;
      }
      calc {
        l1 + (v + ((l2 + a) + l3));
        (l1 + (v + (l2 + a))) + l3;
      }
      calc {
        l0 + (v + ((l1 + (v + (l2 + a))) + l3));
        head + l3;
      }
    }
    ExpandKeepsSuffix(head, l3, version, arch);
  }

  /** `%arch` is not an occurrence of `%version`. */
  lemma ArchSurvivesVersionPass(l3: string, version: string)
    requires '%' !in l3
    ensures ReplaceAll(ArchPlaceholder + l3, VersionPlaceholder, version) == ArchPlaceholder + l3
  {
    var v := VersionPlaceholder;
    var tail := ArchPlaceholder + l3;
    assert !OccursAt(tail, v, 0) by {
      if |v| <= |tail| { assert tail[0..|v|][1] == 'a' != v[1]; }
    }
    ReplaceAllSkip(tail, v, version);
    assert tail[1..] == "arch" + l3;
    ReplaceAllAbsent(tail[1..], v, version);
    assert tail == ['%'] + tail[1..];
  }

  /** One occurrence after a prefix free of the pattern's first character. */
  lemma ReplaceOnce(a: string, b: string, pat: string, rep: string)
    requires pat != [] && pat[0] !in a
    ensures ReplaceAll(a + (pat + b), pat, rep) == a + (rep + ReplaceAll(b, pat, rep))
  {
    ReplaceAllAbsentPrefix(a, pat + b, pat, rep);
    ReplaceAllAtFront(b, pat, rep);
  }

  /** A literal suffix that no placeholder can reach into survives expansion,
      whatever the version and architecture. */
  lemma ExpandKeepsSuffix(t: string, ext: string, version: string, arch: string)
    requires '%' !in ext && ext != [] && ext[0] !in "%version" && ext[0] !in "%arch"
    ensures ExpandUrl(t + ext, version, arch) == ExpandUrl(t, version, arch) + ext
  {
    ReplaceAllKeepsSuffix(t, ext, VersionPlaceholder, version);
    ReplaceAllKeepsSuffix(ReplaceAll(t, VersionPlaceholder, version), ext, ArchPlaceholder, arch);
  }

  /** downloadFileToTemporaryDir's file name: the last piece of the URL split
      on "/", i.e. everything after the last "/" (the whole URL when it has
      none, and the empty name when it ends in "/"). */
  function DownloadFileName(url: string): (name: string)
    ensures '/' !in name
    ensures |name| <= |url| && url[|url| - |name|..] == name
    ensures |name| < |url| ==> url[|url| - |name| - 1] == '/'
    ensures url != [] && url[|url| - 1] == '/' ==> name == ""
  {
    SplitLast(url, "/");
    var name := LastPiece(url, "/");
    FreeOfChar(name, '/');
    assert |name| < |url| ==> url[|url| - |name| - 1..|url| - |name|] == "/";
    name
  }

  /** The file name is what follows the last "/" of the URL. */
  lemma DownloadFileNameAfterSlash(dir: string, file: string)
    requires '/' !in file
    ensures DownloadFileName(dir + ("/" + file)) == file
  {
    var url := dir + ("/" + file);
    var name := DownloadFileName(url);
    assert url[|url| - |file|..] == file;
    assert url[|dir|] == '/';
    assert forall k | |dir| < k < |url| :: url[k] == file[k - |dir| - 1];
    assert forall k | 0 <= k < |name| :: name[k] == url[|url| - |name| + k];
    assert |name| == |file|;
  }
}
