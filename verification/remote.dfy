/** `getOwnerAndRepo` of lib/git.js: reading the owner and repository name
    out of the text `git config --get remote.origin.url` prints (newline
    included). Two versions: the code as written, and the corrected reading
    the rest of the model uses (see the findings in README.md). */
module Remote {
  import opened Wrappers
  import opened JsString

  /** `{owner, repo}`; the owner can be `undefined` (an out-of-range array
      read) on a one-segment `https` text. */
  datatype Origin = Origin(owner: Option<string>, repo: string)

  /** The message of the TypeError Node.js throws when `.substring` is read
      off `undefined`. */
  const UndefinedSubstring := "Cannot read properties of undefined (reading 'substring')"

  /** The last element of a non-empty array. */
  function Last(parts: seq<string>): string
    requires |parts| >= 1
  {
    parts[|parts| - 1]
  }

  /** The owner of the `https://host/owner/repo.git` form: the second-to-last
      `/`-segment, `undefined` when there is only one segment. */
  function HttpsOwner(parts: seq<string>): Option<string>
  {
    if |parts| >= 2 then Some(parts[|parts| - 2]) else None
  }

  /** The owner of the `git@host:owner/repo.git` form: the first segment
      after its first `:` (the whole segment when there is no `:`). */
  function SshOwner(segment: string): string
  {
    SubstringFrom(segment, IndexOf(segment, ":") + 1)
  }

  /** `getOwnerAndRepo` as written: the `https` form is chosen when the text
      contains "https" anywhere, and the repository segment is cut at its
      first ".git" (giving "" when there is none, as `substring(0, -1)` does). */
  function OwnerAndRepoAsWritten(url: string): (r: Result<Origin>)
    ensures r.Err? <==> !Contains(url, "https") && '/' !in url
    ensures r.Err? ==> r.error == UndefinedSubstring
  {
    var parts := Split(url, '/');
    if Contains(url, "https") then
      var seg := Last(parts);
      Ok(Origin(HttpsOwner(parts), Substring(seg, 0, IndexOf(seg, ".git"))))
    else if |parts| < 2 then
      SplitNoSeparatorIff(url, '/');
      Err(UndefinedSubstring)
    else
      SplitNoSeparatorIff(url, '/');
      Ok(Origin(Some(SshOwner(parts[0])), Substring(parts[1], 0, IndexOf(parts[1], ".git"))))
  }

  /** `getOwnerAndRepo` corrected: the `https` form is chosen when the text
      starts with "https", and the repository segment is cut at its last
      ".git", the suffix. */
  function OwnerAndRepo(url: string): (r: Result<Origin>)
    ensures r.Err? <==> !StartsWith(url, "https") && '/' !in url
    ensures r.Err? ==> r.error == UndefinedSubstring
  {
    var parts := Split(url, '/');
    if StartsWith(url, "https") then
      var seg := Last(parts);
      Ok(Origin(HttpsOwner(parts), Substring(seg, 0, LastIndexOf(seg, ".git"))))
    else if |parts| < 2 then
      SplitNoSeparatorIff(url, '/');
      Err(UndefinedSubstring)
    else
      SplitNoSeparatorIff(url, '/');
      Ok(Origin(Some(SshOwner(parts[0])), Substring(parts[1], 0, LastIndexOf(parts[1], ".git"))))
  }

  /** How the `https://host/owner/<segment>` text splits on `/`. */
  lemma HttpsSplit(host: string, owner: string, seg: string)
    requires '/' !in host && '/' !in owner && '/' !in seg
    ensures Split("https://" + host + "/" + owner + "/" + seg, '/')
         == ["https:", "", host, owner, seg]
  {
    var q := "https://" + host;
    var p := q + "/" + owner;
    SplitAtSeparator(p, seg, '/');
    SplitNoSeparator(seg, '/');
    SplitAtSeparator(q, owner, '/');
    SplitNoSeparator(owner, '/');
    SchemeSplit();
    assert q == "https:/" + ['/'] + host;
    SplitAtSeparator("https:/", host, '/');
    SplitNoSeparator(host, '/');
  }

  /** How the scheme `https://` itself splits on `/`. */
  lemma SchemeSplit()
    ensures "https://" == "https:/" + ['/']
    ensures Split("https:/", '/') == ["https:", ""]
  {
    assert "https:/" == "https:" + ['/'] + "";
    SplitCons("https:", "", '/');
  }

  /** How the `git@host:owner/<segment>` text splits on `/`. */
  lemma SshSplit(host: string, owner: string, seg: string)
    requires '/' !in host && '/' !in owner && '/' !in seg
    ensures Split("git@" + host + ":" + owner + "/" + seg, '/') == ["git@" + host + ":" + owner, seg]
  {
    var a := "git@" + host + ":" + owner;
    assert '/' !in a by {
      forall i | 0 <= i < |a|
        ensures a[i] != '/'
      {
        if i < 4 {
          assert a[i] == "git@"[i];
        } else if i < 4 + |host| {
          assert a[i] == host[i - 4];
        } else if i > 4 + |host| {
          assert a[i] == owner[i - 5 - |host|];
        }
      }
    }
    SplitCons(a, seg, '/');
    SplitNoSeparator(seg, '/');
    assert "git@" + host + ":" + owner + "/" + seg == a + ['/'] + seg;
  }

  /** The owner of `git@host:owner` is what follows the first `:`. */
  lemma SshOwnerOf(host: string, owner: string)
    requires ':' !in host
    ensures SshOwner("git@" + host + ":" + owner) == owner
  {
    var x := "git@" + host;
    assert ':' !in x by {
      assert forall i :: 0 <= i < |x| ==> x[i] == (if i < 4 then "git@"[i] else host[i - 4]);
    }
    IndexOfFirstChar(x, ':', owner);
    assert "git@" + host + ":" + owner == x + [':'] + owner;
  }

  /** The corrected reading recovers owner and repository from an `https`
      remote URL, whatever the repository name contains. */
  lemma HttpsRoundTrip(host: string, owner: string, repo: string, url: string)
    requires '/' !in host && '/' !in owner && '/' !in repo
    requires url == "https://" + host + "/" + owner + "/" + repo + ".git\n"
    ensures OwnerAndRepo(url) == Ok(Origin(Some(owner), repo))
  {
    var seg := repo + ".git\n";
    assert '/' !in seg;
    HttpsSplit(host, owner, seg);
    assert url == "https://" + host + "/" + owner + "/" + seg;
    LastGitIsSuffix(repo);
  }

  /** The corrected reading recovers owner and repository from an SSH
      remote URL, whatever the owner and repository names contain. */
  lemma SshRoundTrip(host: string, owner: string, repo: string, url: string)
    requires ':' !in host && '/' !in host && '/' !in owner && '/' !in repo
    requires url == "git@" + host + ":" + owner + "/" + repo + ".git\n"
    ensures OwnerAndRepo(url) == Ok(Origin(Some(owner), repo))
  {
    var seg := repo + ".git\n";
    assert '/' !in seg;
    assert url == "git@" + host + ":" + owner + "/" + seg;
    SshSplit(host, owner, seg);
    assert url[0] == 'g';
    SshOwnerOf(host, owner);
    LastGitIsSuffix(repo);
  }

  /** The code as written reads an `https` URL right only when the
      repository name has no ".git" of its own. */
  lemma AsWrittenHttpsRoundTrip(host: string, owner: string, repo: string, url: string)
    requires '/' !in host && '/' !in owner && '/' !in repo
    requires !Contains(repo, ".git")
    requires url == "https://" + host + "/" + owner + "/" + repo + ".git\n"
    ensures OwnerAndRepoAsWritten(url) == Ok(Origin(Some(owner), repo))
  {
    var seg := repo + ".git\n";
    assert '/' !in seg;
    assert url == "https://" + host + "/" + owner + "/" + seg;
    HttpsSplit(host, owner, seg);
    assert url[..5] == "https";
    assert OccursAt(url, "https", 0);
    FirstGitAfter(repo, "\n");
    assert repo + ".git" + "\n" == seg;
  }

  /** The code as written reads an SSH URL right when no "https" occurs
      anywhere in it and the repository name has no ".git" of its own. */
  lemma AsWrittenSshRoundTrip(host: string, owner: string, repo: string, url: string)
    requires ':' !in host && '/' !in host && '/' !in owner && '/' !in repo
    requires !Contains(url, "https")
    requires !Contains(repo, ".git")
    requires url == "git@" + host + ":" + owner + "/" + repo + ".git\n"
    ensures OwnerAndRepoAsWritten(url) == Ok(Origin(Some(owner), repo))
  {
    var seg := repo + ".git\n";
    assert '/' !in seg;
    assert url == "git@" + host + ":" + owner + "/" + seg;
    SshSplit(host, owner, seg);
    SshOwnerOf(host, owner);
    FirstGitAfter(repo, "\n");
    assert repo + ".git" + "\n" == seg;
  }

  /** The converse as well: as written, an SSH URL is read right exactly
      when no "https" occurs anywhere in it (host, owner or name) and the
      repository name has no ".git" of its own. */
  lemma AsWrittenSshReadRightIff(host: string, owner: string, repo: string, url: string)
    requires ':' !in host && '/' !in host && '/' !in owner && '/' !in repo
    requires url == "git@" + host + ":" + owner + "/" + repo + ".git\n"
    ensures OwnerAndRepoAsWritten(url) == Ok(Origin(Some(owner), repo))
        <==> !Contains(url, "https") && !Contains(repo, ".git")
  {
    var seg := repo + ".git\n";
    assert '/' !in seg;
    var who := "git@" + host + ":" + owner;
    assert url == who + "/" + seg;
    if !Contains(url, "https") && !Contains(repo, ".git") {
      AsWrittenSshRoundTrip(host, owner, repo, url);
    } else if Contains(url, "https") {
      SshSplit(host, owner, seg);
      assert HttpsOwner(Split(url, '/')) == Some(who);
      assert |who| > |owner|;
    } else {
      SshSplit(host, owner, seg);
      var i := IndexOf(repo, ".git");
      assert OccursAt(repo, ".git", i);
      assert seg[i..i + 4] == repo[i..i + 4];
      assert OccursAt(seg, ".git", i);
      var cut := IndexOf(seg, ".git");
      assert 0 <= cut <= i < |repo|;
      assert |Substring(seg, 0, cut)| == cut;
    }
  }

  /** A segment without ".git" is cut to the empty string by both readings,
      because `substring(0, -1)` is the empty string. */
  lemma NoGitCutsToEmpty(seg: string)
    requires !Contains(seg, ".git")
    ensures Substring(seg, 0, IndexOf(seg, ".git")) == ""
    ensures Substring(seg, 0, LastIndexOf(seg, ".git")) == ""
  {
    var last := LastIndexOf(seg, ".git");
    assert last == -1 || OccursAt(seg, ".git", last);
    assert forall i :: 0 <= i ==> !OccursAt(seg, ".git", i);
  }

  /** Without ".git" in its last segment, an `https` URL gives an empty
      repository name in both readings. */
  lemma MissingGitGivesEmptyRepo(host: string, owner: string, seg: string, url: string)
    requires '/' !in host && '/' !in owner && '/' !in seg && !Contains(seg, ".git")
    requires url == "https://" + host + "/" + owner + "/" + seg
    ensures OwnerAndRepoAsWritten(url) == Ok(Origin(Some(owner), ""))
    ensures OwnerAndRepo(url) == Ok(Origin(Some(owner), ""))
  {
    HttpsSplit(host, owner, seg);
    assert url[..5] == "https";
    OccursBetween("", "https", url[5..]);
    assert "" + "https" + url[5..] == url;
    NoGitCutsToEmpty(seg);
  }

  /** Without ".git" after its slash, an SSH URL gives an empty repository
      name in both readings; the corrected one still finds the owner. */
  lemma SshMissingGitGivesEmptyRepo(host: string, owner: string, seg: string, url: string)
    requires ':' !in host && '/' !in host && '/' !in owner && '/' !in seg && !Contains(seg, ".git")
    requires url == "git@" + host + ":" + owner + "/" + seg
    ensures OwnerAndRepoAsWritten(url).Ok? && OwnerAndRepoAsWritten(url).value.repo == ""
    ensures OwnerAndRepo(url) == Ok(Origin(Some(owner), ""))
  {
    SshSplit(host, owner, seg);
    assert url[0] == 'g';
    SshOwnerOf(host, owner);
    NoGitCutsToEmpty(seg);
  }

  /** Finding, in general: as written, an SSH URL whose repository name
      merely contains "https" (such as `git@github.com:o/https-proxy.git`)
      is read as the `https` form, so the owner comes out as the whole
      `git@host:owner` segment; the corrected reading gives the owner. */
  lemma AsWrittenMisreadsSshWithHttps(host: string, owner: string, pre: string, post: string, url: string)
    requires ':' !in host && '/' !in host && '/' !in owner && '/' !in pre && '/' !in post
    requires '.' !in pre && '.' !in post
    requires url == "git@" + host + ":" + owner + "/" + pre + "https" + post + ".git\n"
    ensures OwnerAndRepoAsWritten(url) == Ok(Origin(Some("git@" + host + ":" + owner), pre + "https" + post))
    ensures OwnerAndRepo(url) == Ok(Origin(Some(owner), pre + "https" + post))
    ensures OwnerAndRepoAsWritten(url) != OwnerAndRepo(url)
  {
    var who := "git@" + host + ":" + owner;
    var repo := pre + "https" + post;
    assert '/' !in repo && '.' !in repo;
    var seg := repo + ".git\n";
    assert '/' !in seg;
    assert url == "git@" + host + ":" + owner + "/" + seg;
    assert url == "git@" + host + ":" + owner + "/" + repo + ".git\n";
    OccursBetween(who + "/" + pre, "https", post + ".git\n");
    assert who + "/" + pre + "https" + (post + ".git\n") == url;
    SshSplit(host, owner, seg);
    IndexOfAbsentHead(repo, ".git");
    FirstGitAfter(repo, "\n");
    assert repo + ".git" + "\n" == seg;
    SshRoundTrip(host, owner, repo, url);
    assert |who| > |owner|;
  }

  /** Finding, in general: as written, a repository name with ".git" inside
      it (such as the GitHub Pages repository `o.github.io`) is cut at that
      first ".git"; the corrected reading keeps the whole name. */
  lemma AsWrittenCutsAtFirstGit(host: string, owner: string, stem: string, more: string, url: string)
    requires '/' !in host && '/' !in owner && '/' !in stem && '/' !in more
    requires !Contains(stem, ".git")
    requires url == "https://" + host + "/" + owner + "/" + stem + ".git" + more + ".git\n"
    ensures OwnerAndRepoAsWritten(url) == Ok(Origin(Some(owner), stem))
    ensures OwnerAndRepo(url) == Ok(Origin(Some(owner), stem + ".git" + more))
    ensures OwnerAndRepoAsWritten(url) != OwnerAndRepo(url)
  {
    var seg := stem + ".git" + (more + ".git\n");
    assert '/' !in seg;
    assert url == "https://" + host + "/" + owner + "/" + seg;
    HttpsSplit(host, owner, seg);
    assert url[..5] == "https";
    OccursBetween("", "https", url[5..]);
    assert "" + "https" + url[5..] == url;
    FirstGitAfter(stem, more + ".git\n");
    assert Contains(url, "https");
    assert seg[..|stem|] == stem;
    var repo := stem + ".git" + more;
    assert '/' !in repo;
    assert url == "https://" + host + "/" + owner + "/" + repo + ".git\n";
    HttpsRoundTrip(host, owner, repo, url);
    assert |repo| > |stem|;
  }
}
