/** Printed artifact references and Flux revisions, and what their parsers make of them. */
module References {
  import opened Wrappers
  import opened Strings

  datatype Partition = Partition(before: string, found: bool, after: string)

  /** Python's `rpartition` on one character: split at its last occurrence. */
  function RPartition(s: string, c: char): Partition {
    if s == "" then Partition("", false, "")
    else
      var n := |s| - 1;
      if s[n] == c then Partition(s[..n], true, "")
      else
        var p := RPartition(s[..n], c);
        if p.found then Partition(p.before, true, p.after + [s[n]]) else Partition("", false, s)
  }

  lemma {:induction false} RPartitionSplits(s: string, c: char)
    ensures var p := RPartition(s, c);
            if c in s then p.found && s == p.before + [c] + p.after && c !in p.after
            else p == Partition("", false, s)
  {
    if s != "" {
      var n := |s| - 1;
      RPartitionSplits(s[..n], c);
      assert s == s[..n] + [s[n]];
    }
  }

  lemma LastSplitIsUnique(s: string, c: char, before: string, after: string)
    requires s == before + [c] + after && c !in after
    ensures RPartition(s, c) == Partition(before, true, after)
  {
    RPartitionSplits(s, c);
    var p := RPartition(s, c);
    assert s[|before|] == c;
    assert s[|p.before|] == c;
    assert forall i :: |before| < i < |s| ==> s[i] == after[i - |before| - 1] && s[i] in after;
    assert forall i :: |p.before| < i < |s| ==> s[i] == p.after[i - |p.before| - 1] && s[i] in p.after;
    assert |p.before| == |before|;
    assert s[..|before|] == before && s[..|before|] == p.before;
    assert s[|before| + 1..] == after && s[|before| + 1..] == p.after;
  }

  /** A reference to an artifact on a registry: the server may carry a port. */
  function Printed(server: string, repository: string, tag: string): string {
    server + "/" + repository + ":" + tag
  }

  datatype Image = Image(repository: string, tag: Option<string>, digest: Option<string>)

  datatype Error = InvalidReference(reference: string)

  /** The parser of tagged references. */
  function ParseImage(reference: string): Result<Image, Error> {
    var p := RPartition(reference, ':');
    if !p.found || p.before == "" || p.after == "" then Failure(InvalidReference(reference))
    else Success(Image(p.before, Some(p.after), None))
  }

  /** A printed reference parses back to its repository on the server and its tag exactly when the
      tag is not empty and holds no colon. */
  lemma ParseOfPrinted(server: string, repository: string, tag: string)
    ensures ParseImage(Printed(server, repository, tag)) == Success(Image(server + "/" + repository, Some(tag), None))
            <==> tag != "" && ':' !in tag
  {
    var s := Printed(server, repository, tag);
    assert s == (server + "/" + repository) + [':'] + tag;
    if ':' !in tag { LastSplitIsUnique(s, ':', server + "/" + repository, tag); }
    RPartitionSplits(s, ':');
  }

  /** Whatever parses prints back to itself. */
  lemma PrintOfParsed(reference: string)
    ensures ParseImage(reference).Success? ==>
              var image := ParseImage(reference).value;
              image.tag.Some? && image.digest.None? && image.repository + ":" + image.tag.value == reference
  {
    RPartitionSplits(reference, ':');
  }

  /** What is refused: a text without a colon, or with nothing before or after its last one. */
  lemma ParsesExactly(reference: string)
    ensures ParseImage(reference).Success? <==>
              exists before, after ::
                before != "" && after != "" && ':' !in after && reference == before + ":" + after
  {
    RPartitionSplits(reference, ':');
    var p := RPartition(reference, ':');
    if p.found { assert reference == p.before + ":" + p.after; }
    if before, after :| before != "" && after != "" && ':' !in after && reference == before + ":" + after {
      LastSplitIsUnique(reference, ':', before, after);
    }
  }

  /** The artifact revision that Flux reports for a branch and a commit. */
  function FluxRevision(branch: string, commit: string): string { branch + "@sha1:" + commit }

  /** The commit read out of a revision; a missing or empty revision is an error. */
  function RevisionSha(revision: Option<string>): Result<string, ()> {
    if revision.None? || revision.value == "" then Failure(())
    else if Occurs("@sha", revision.value) && ':' in revision.value then Success(RPartition(revision.value, ':').after)
    else Success(revision.value)
  }

  /** What is read out of any revision: what stands behind its last colon if it names a SHA, else all of
      it; without a revision the read fails. */
  lemma RevisionShaIs(revision: Option<string>)
    ensures RevisionSha(revision).Failure? <==> revision.None? || revision.value == ""
    ensures RevisionSha(revision).Success? ==>
              var sha := RevisionSha(revision).value;
              if Occurs("@sha", revision.value) && ':' in revision.value then
                ':' !in sha && exists before :: revision.value == before + ":" + sha
              else sha == revision.value
  {
    hide Occurs;
    if revision.Some? {
      RPartitionSplits(revision.value, ':');
      var p := RPartition(revision.value, ':');
      if p.found { assert revision.value == p.before + ":" + p.after; }
    }
  }

  /** The SHA of a printed revision is its commit exactly when the commit holds no colon. */
  lemma ShaOfRevision(branch: string, commit: string)
    ensures RevisionSha(Some(FluxRevision(branch, commit))) == Success(commit) <==> ':' !in commit
  {
    var s := FluxRevision(branch, commit);
    assert s == (branch + "@sha1") + [':'] + commit;
    assert s[|branch|..|branch| + 4] == "@sha";
    assert OccursAt("@sha", s, |branch|);
    assert s[|branch| + 5] == ':';
    if ':' !in commit { LastSplitIsUnique(s, ':', branch + "@sha1", commit); }
    RPartitionSplits(s, ':');
  }
}
