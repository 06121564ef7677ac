/** The image scanner's bookkeeping: overlapping windows, content scanned once, and what a clean image means. */
module ImageScan {
  import opened Octets
  import opened Sequences
  import opened Wrappers

  type Text = Bytes

  const CHUNK: nat := 4194304
  const OVERLAP: nat := 65536
  const STEP: nat := CHUNK - OVERLAP

  // ---- Windows ----

  /** The number of offsets in `range(0, max(1, n), STEP)`. */
  function WindowCount(n: nat): nat {
    ((if n < 1 then 1 else n) + STEP - 1) / STEP
  }

  function Window(text: Text, k: nat): Text
    requires k < WindowCount(|text|)
  {
    var start := if k * STEP < |text| then k * STEP else |text|;
    text[start..if start + CHUNK < |text| then start + CHUNK else |text|]
  }

  ghost predicate WithinWindow(text: Text, i: nat, j: nat, k: nat)
    requires i <= j <= |text|
  {
    && k < WindowCount(|text|) && k * STEP <= i && j <= k * STEP + |Window(text, k)|
    && Window(text, k)[i - k * STEP..j - k * STEP] == text[i..j]
  }

  lemma StartsCount(n: nat, k: nat)
    requires k * STEP < n
    ensures k < WindowCount(n)
  {
    assert (k + 1) * STEP <= n + STEP - 1;
  }

  /** Everything up to one byte longer than the overlap lies whole in some window. */
  lemma ShortTextInOneWindow(text: Text, i: nat, j: nat)
    requires i < j <= |text| && j - i <= OVERLAP + 1
    ensures WithinWindow(text, i, j, i / STEP)
  {
    var k := i / STEP;
    assert k * STEP <= i <= k * STEP + STEP - 1;
    StartsCount(|text|, k);
    hide WindowCount;
    var start, end := k * STEP, if k * STEP + CHUNK < |text| then k * STEP + CHUNK else |text|;
    assert Window(text, k) == text[start..end] && j <= end;
    SliceOfSlice(text, start, end, i - start, j - start);
  }

  /** And no more is guaranteed: two bytes more than the overlap may fall between two windows. */
  lemma LongerTextMayBeSplit(text: Text, k: nat)
    requires |text| > CHUNK && k < WindowCount(|text|)
    ensures !WithinWindow(text, STEP - 1, STEP + OVERLAP + 1, k)
  {
    if k >= 1 {
      assert k * STEP >= STEP;
    }
  }

  // ---- The scanner ----

  /** `digest.variant.offset.txt` */
  datatype FileName = FileName(sha: nat, variant: nat, offset: nat)

  /** The files that the external scanner is pointed at. */
  type Corpus = map<FileName, Text>

  /** `sha` is missing when the reported file name does not start with a digest. */
  datatype Finding = Finding(sha: Option<nat>, rule: nat)

  /** How a run of the external scanner ends. */
  datatype Run = Broken | Report(returncode: int, oversized: bool, findings: seq<Finding>)

  /** The external scanner: how its n-th run ends on a corpus. */
  type Gitleaks = (nat, Corpus) -> Run

  predicate Usable(run: Run) {
    run.Report? && (run.returncode == 0 || run.returncode == 1) && !run.oversized && ((run.findings != []) == (run.returncode == 1))
  }

  /** The reviewed exceptions, the digest and the further texts derived from the bytes. */
  datatype Policy = Policy(allowed: set<(nat, nat)>, digest: Text -> nat, printable: Text -> Text, decoded: Text -> seq<Text>)

  function Variants(p: Policy, data: Text): seq<Text> {
    [p.printable(data)] + p.decoded(data)
  }

  /** Every window of every variant is in the corpus. */
  ghost predicate Full(p: Policy, corpus: Corpus, data: Text) {
    forall v :: 0 <= v < |Variants(p, data)| ==> FullVariant(p, corpus, data, v, WindowCount(|Variants(p, data)[v]|))
  }

  ghost predicate FullVariant(p: Policy, corpus: Corpus, data: Text, v: nat, upTo: nat)
    requires v < |Variants(p, data)| && upTo <= WindowCount(|Variants(p, data)[v]|)
  {
    forall k :: 0 <= k < upTo ==> HoldsWindow(p, corpus, data, v, k)
  }

  predicate Holds(corpus: Corpus, name: FileName, text: Text) {
    name in corpus && corpus[name] == text
  }

  lemma FullHasFile(p: Policy, corpus: Corpus, data: Text)
    requires Full(p, corpus, data)
    ensures corpus != map[]
  {
    assert FullVariant(p, corpus, data, 0, WindowCount(|Variants(p, data)[0]|));
    assert HoldsWindow(p, corpus, data, 0, 0);
  }

  ghost predicate Injective(p: Policy) {
    forall a, b :: p.digest(a) == p.digest(b) ==> a == b
  }

  predicate HoldsWindow(p: Policy, corpus: Corpus, data: Text, v: nat, k: nat)
    requires v < |Variants(p, data)| && k < WindowCount(|Variants(p, data)[v]|)
  {
    Holds(corpus, FileName(p.digest(data), v, k * STEP), Window(Variants(p, data)[v], k))
  }

  /** Windows of `data` may have been added; nothing of anything else has changed. */
  ghost predicate Grown(p: Policy, before: Corpus, after: Corpus, data: Text) {
    && (forall name :: name in before && name.sha != p.digest(data) ==> Holds(after, name, before[name]))
    && (forall v, k :: 0 <= v < |Variants(p, data)| && 0 <= k < WindowCount(|Variants(p, data)[v]|) ==>
          HoldsWindow(p, before, data, v, k) ==> HoldsWindow(p, after, data, v, k))
  }

  lemma GrownKeeps(p: Policy, before: Corpus, after: Corpus, data: Text, other: Text)
    requires Injective(p) && Grown(p, before, after, data) && Full(p, before, other)
    ensures Full(p, after, other)
  {
    forall v | 0 <= v < |Variants(p, other)|
      ensures FullVariant(p, after, other, v, WindowCount(|Variants(p, other)[v]|))
    {
      var n := WindowCount(|Variants(p, other)[v]|);
      assert FullVariant(p, before, other, v, n);
      forall k | 0 <= k < n
        ensures HoldsWindow(p, after, other, v, k)
      {
        assert HoldsWindow(p, before, other, v, k);
        assert p.digest(other) == p.digest(data) ==> other == data;
      }
    }
  }

  /** Digests that some data of theirs, in full or already scanned, stands for. */
  ghost predicate Standing(p: Policy, corpus: Corpus, ran: iset<Text>, sha: nat) {
    exists data :: Stands(p, corpus, ran, sha, data)
  }

  ghost predicate Stands(p: Policy, corpus: Corpus, ran: iset<Text>, sha: nat, data: Text) {
    p.digest(data) == sha && (Full(p, corpus, data) || data in ran)
  }

  ghost predicate Scanned(p: Policy, ran: iset<Text>, sha: nat) {
    exists data :: data in ran && p.digest(data) == sha
  }

  // ---- Completed runs ----

  /** A run that was used: its number and the corpus it was given. */
  datatype Completed = Completed(n: nat, corpus: Corpus)

  ghost predicate InLog(p: Policy, log: seq<Completed>, data: Text) {
    exists k :: 0 <= k < |log| && Full(p, log[k].corpus, data)
  }

  /** The data of which a completed run was given everything. */
  ghost function Ran(p: Policy, log: seq<Completed>): iset<Text> {
    iset data | InLog(p, log, data)
  }

  /** A finding is reviewed or on the list of failures. */
  ghost predicate Accounted(p: Policy, f: Finding, failures: seq<(nat, nat)>) {
    f.sha.Some? && ((f.sha.value, f.rule) in p.allowed || (f.sha.value, f.rule) in failures)
  }

  /** The run ended well, and everything it found is accounted for. */
  ghost predicate Judged(p: Policy, run: Run, failures: seq<(nat, nat)>) {
    Usable(run) && forall f :: f in run.findings ==> Accounted(p, f, failures)
  }

  ghost predicate LogJudged(p: Policy, gitleaks: Gitleaks, log: seq<Completed>, failures: seq<(nat, nat)>) {
    forall k :: 0 <= k < |log| ==> Judged(p, gitleaks(log[k].n, log[k].corpus), failures)
  }

  /** The stretch from `i` to `j` of a text lies in a file of the corpus, under the digest of the data. */
  ghost predicate StretchIn(p: Policy, corpus: Corpus, data: Text, v: nat, i: nat, j: nat)
    requires v < |Variants(p, data)| && i <= j <= |Variants(p, data)[v]|
  {
    exists k :: 0 <= k && WithinWindow(Variants(p, data)[v], i, j, k) && HoldsWindow(p, corpus, data, v, k)
  }

  ghost predicate StretchScanned(p: Policy, log: seq<Completed>, data: Text, v: nat, i: nat, j: nat)
    requires v < |Variants(p, data)| && i <= j <= |Variants(p, data)[v]|
  {
    exists k :: 0 <= k < |log| && StretchIn(p, log[k].corpus, data, v, i, j)
  }

  /** Everything up to one byte longer than the overlap, in the bytes or in a text derived from them. */
  ghost predicate EveryStretchScanned(p: Policy, log: seq<Completed>, data: Text) {
    forall v, i, j :: 0 <= v < |Variants(p, data)| && 0 <= i < j <= |Variants(p, data)[v]| && j - i <= OVERLAP + 1 ==>
      StretchScanned(p, log, data, v, i, j)
  }

  lemma InLogScanned(p: Policy, log: seq<Completed>, data: Text)
    requires InLog(p, log, data)
    ensures EveryStretchScanned(p, log, data)
  {
    var n :| 0 <= n < |log| && Full(p, log[n].corpus, data);
    forall v, i, j | 0 <= v < |Variants(p, data)| && 0 <= i < j <= |Variants(p, data)[v]| && j - i <= OVERLAP + 1
      ensures StretchScanned(p, log, data, v, i, j)
    {
      ShortTextInOneWindow(Variants(p, data)[v], i, j);
      hide WindowCount, Window;
      assert FullVariant(p, log[n].corpus, data, v, WindowCount(|Variants(p, data)[v]|));
      assert HoldsWindow(p, log[n].corpus, data, v, i / STEP);
      assert StretchIn(p, log[n].corpus, data, v, i, j);
    }
  }

  lemma RanMore(p: Policy, log: seq<Completed>, c: Completed)
    ensures Ran(p, log + [c]) == Ran(p, log) + iset data | Full(p, c.corpus, data)
  {
    hide Full;
    var all := log + [c];
    forall data
      ensures InLog(p, all, data) <==> InLog(p, log, data) || Full(p, c.corpus, data)
    {
      if InLog(p, log, data) {
        var k :| 0 <= k < |log| && Full(p, log[k].corpus, data);
        assert Full(p, all[k].corpus, data);
      }
      if Full(p, c.corpus, data) {
        assert Full(p, all[|log|].corpus, data);
      }
    }
  }

  /** What happens while an image is read: content is submitted, a layer ends in a scanner run, something is blocked. */
  datatype Op = Submit(data: Text, depth: nat) | LayerDone | Block

  const MAX_TOTAL: nat := 8589934592
  const MAX_FILE: nat := 268435456
  const MAX_DEPTH: nat := 5

  function Submitted(ops: seq<Op>): set<Text> {
    set op | op in ops && op.Submit? :: op.data
  }

  class Scanner {
    const policy: Policy
    const gitleaks: Gitleaks
    var seen: set<nat>
    var scanned: set<nat>
    var pending: set<nat>
    var corpus: Corpus
    var failures: seq<(nat, nat)>
    var total: nat

    var runs: nat

    // The completed runs, oldest first.
    ghost var log: seq<Completed>

    /** Holds even after a blocked image. */
    ghost predicate Consistent()
      reads this
    {
      && (forall sha :: sha in pending ==> Standing(policy, corpus, Ran(policy, log), sha))
      && (forall sha :: sha in scanned ==> Scanned(policy, Ran(policy, log), sha))
      && LogJudged(policy, gitleaks, log, failures)
    }

    /** Holds while an image is read: what has been seen has been written or scanned. */
    ghost predicate Valid()
      reads this
    {
      Consistent() && seen <= pending + scanned
    }

    constructor (policy: Policy, gitleaks: Gitleaks)
      ensures Consistent() && this.policy == policy && this.gitleaks == gitleaks && log == [] && failures == []
    {
      this.policy, this.gitleaks := policy, gitleaks;
      seen, scanned, pending, corpus, failures, total := {}, {}, {}, map[], [], 0;
      runs, log := 0, [];
    }

    /** Writes all windows of one variant; a write may fail. */
    method WriteVariant(data: Text, v: nat) returns (ok: bool)
      requires v < |Variants(policy, data)|
      modifies this`corpus
      ensures Grown(policy, old(corpus), corpus, data)
      ensures ok ==> FullVariant(policy, corpus, data, v, WindowCount(|Variants(policy, data)[v]|))
    {
      var sha, text := policy.digest(data), Variants(policy, data)[v];
      var end := if |text| < 1 then 1 else |text|;
      var offset := 0;
      ghost var k := 0;
      while offset < end
        invariant k <= WindowCount(|text|) && offset == k * STEP && (k < WindowCount(|text|) <==> offset < end)
        invariant Grown(policy, old(corpus), corpus, data)
        invariant FullVariant(policy, corpus, data, v, k)
      {
        var written: bool := *;
        if !written {
          return false;
        }
        var start := if offset < |text| then offset else |text|;
        var stop := if start + CHUNK < |text| then start + CHUNK else |text|;
        WindowWritten(policy, old(corpus), corpus, data, v, k);
        assert text[start..stop] == Window(text, k);
        corpus := corpus[FileName(sha, v, offset) := text[start..stop]];
        k := k + 1;
        offset := offset + STEP;
      }
      ok := true;
    }

    /** Writes every variant under the digest's names. */
    method Write(data: Text) returns (ok: bool)
      modifies this`corpus
      ensures Grown(policy, old(corpus), corpus, data)
      ensures ok ==> Full(policy, corpus, data)
    {
      hide WindowCount, HoldsWindow;
      for v := 0 to |Variants(policy, data)|
        invariant Grown(policy, old(corpus), corpus, data)
        invariant forall u :: 0 <= u < v ==> FullVariant(policy, corpus, data, u, WindowCount(|Variants(policy, data)[u]|))
      {
        ok := WriteVariant(data, v);
        if !ok {
          return;
        }
      }
      ok := true;
    }

    /** `content`, up to the inspection of nested archives; false is a raised exception. */
    method Content(data: Text, depth: nat) returns (ok: bool)
      requires Valid() && Injective(policy)
      modifies this`seen, this`pending, this`corpus, this`total
      ensures Consistent() && total == old(total) + |data|
      ensures ok ==> Valid() && seen == old(seen) + {policy.digest(data)}
      ensures ok ==> total <= MAX_TOTAL && depth <= MAX_DEPTH && |data| <= MAX_FILE
    {
      hide Full, Grown, Ran, LogJudged;
      total := total + |data|;
      if total > MAX_TOTAL || depth > MAX_DEPTH || |data| > MAX_FILE {
        return false;
      }
      var sha := policy.digest(data);
      if sha in seen {
        return true;
      }
      seen := seen + {sha};
      ok := true;
      if sha !in scanned {
        ghost var before := corpus;
        ok := Write(data);
        StillStanding(policy, before, corpus, Ran(policy, log), data, pending);
        if ok {
          assert Stands(policy, corpus, Ran(policy, log), sha, data);
          pending := pending + {sha};
        }
      }
    }

    /** Runs the external scanner over the corpus; false is a raised exception.  After a flush everything seen was
        whole in the corpus of a completed run, and a run is completed only by a usable report. */
    method Flush() returns (ok: bool)
      requires Valid()
      modifies this`scanned, this`pending, this`corpus, this`failures, this`runs, this`log
      ensures Consistent() && old(failures) <= failures
      ensures log == old(log) || (old(corpus) != map[] && log == old(log) + [Completed(old(runs), old(corpus))])
      ensures ok ==> Valid() && forall sha :: sha in seen ==> Scanned(policy, Ran(policy, log), sha)
      ensures ok && old(corpus) != map[] ==> log != old(log)
      ensures runs == if old(corpus) == map[] then old(runs) else old(runs) + 1
    {
      hide Full, LogJudged, Judged, Ran, Usable;
      if corpus == map[] {
        PendingHaveRun(policy, Ran(policy, log), pending);
        return true;
      }
      var run := gitleaks(runs, corpus);
      ghost var completed := Completed(runs, corpus);
      runs := runs + 1;
      if !Usable(run) {
        return false;
      }
      ok := Judge(run, log);
      if !ok {
        return;
      }
      ghost var had := Ran(policy, log);
      LogMore(policy, gitleaks, log, completed, failures);
      RanMore(policy, log, completed);
      log := log + [completed];
      NowScanned(policy, corpus, had, Ran(policy, log), pending, scanned);
      var unlinked: bool := *;
      if !unlinked {
        var left: set<FileName> :| left <= corpus.Keys;
        corpus := map name | name in left :: corpus[name];
        ScannedStand(policy, corpus, Ran(policy, log), pending);
        return false;
      }
      corpus := map[];
      scanned := scanned + pending;
      pending := {};
    }

    /** Every finding is either reviewed or a failure for good. */
    method Judge(run: Run, ghost before: seq<Completed>) returns (ok: bool)
      requires Usable(run) && LogJudged(policy, gitleaks, before, failures)
      modifies this`failures
      ensures old(failures) <= failures && LogJudged(policy, gitleaks, before, failures)
      ensures ok ==> Judged(policy, run, failures)
    {
      for i := 0 to |run.findings|
        invariant old(failures) <= failures
        invariant forall k :: 0 <= k < i ==> Accounted(policy, run.findings[k], failures)
      {
        if run.findings[i].sha.None? {
          MoreFailures(policy, gitleaks, before, old(failures), failures);
          return false;
        }
        var finding := (run.findings[i].sha.value, run.findings[i].rule);
        if finding !in policy.allowed {
          failures := failures + [finding];
        }
      }
      MoreFailures(policy, gitleaks, before, old(failures), failures);
      ok := true;
    }

    /** One image.  It passes only when every stretch of everything submitted, up to one byte longer than the overlap,
        lay in a file of a completed run, for this image or an earlier one, and no completed run has found anything
        that is not reviewed. */
    method Image(ops: seq<Op>) returns (ok: bool)
      requires Consistent() && Injective(policy)
      modifies this
      ensures Consistent() && old(log) <= log
      ensures forall k :: |old(log)| <= k < |log| ==> old(runs) <= log[k].n < runs
      ensures ok ==> forall data :: data in Submitted(ops) ==> EveryStretchScanned(policy, log, data)
      ensures ok ==> LogJudged(policy, gitleaks, log, [])
    {
      hide Full, LogJudged, Ran, EveryStretchScanned;
      total, seen := 0, {};
      for i := 0 to |ops|
        invariant Valid() && old(log) <= log && old(runs) <= runs
        invariant forall k :: |old(log)| <= k < |log| ==> old(runs) <= log[k].n < runs
        invariant forall k :: 0 <= k < i && ops[k].Submit? ==> policy.digest(ops[k].data) in seen
      {
        match ops[i] {
          case Submit(data, depth) => ok := Content(data, depth);
          case LayerDone => ok := Flush();
          case Block => ok := false;
        }
        if !ok {
          return;
        }
      }
      ok := Flush();
      if !ok || failures != [] {
        return false;
      }
      forall data | data in Submitted(ops)
        ensures EveryStretchScanned(policy, log, data)
      {
        var k :| 0 <= k < |ops| && ops[k].Submit? && ops[k].data == data;
        WasRun(policy, log, data);
      }
    }
  }

  lemma WasRun(p: Policy, log: seq<Completed>, data: Text)
    requires Injective(p) && Scanned(p, Ran(p, log), p.digest(data))
    ensures EveryStretchScanned(p, log, data)
  {
    hide EveryStretchScanned, InLog;
    InLogScanned(p, log, data);
  }

  lemma LogMore(p: Policy, gitleaks: Gitleaks, log: seq<Completed>, c: Completed, failures: seq<(nat, nat)>)
    requires LogJudged(p, gitleaks, log, failures) && Judged(p, gitleaks(c.n, c.corpus), failures)
    ensures LogJudged(p, gitleaks, log + [c], failures)
  {
    hide Judged;
  }

  lemma MoreFailures(p: Policy, gitleaks: Gitleaks, log: seq<Completed>, few: seq<(nat, nat)>, more: seq<(nat, nat)>)
    requires LogJudged(p, gitleaks, log, few) && few <= more
    ensures LogJudged(p, gitleaks, log, more)
  {
    forall k | 0 <= k < |log|
      ensures Judged(p, gitleaks(log[k].n, log[k].corpus), more)
    {
      assert Judged(p, gitleaks(log[k].n, log[k].corpus), few);
    }
  }

  lemma WindowWritten(p: Policy, before: Corpus, corpus: Corpus, data: Text, v: nat, k: nat)
    requires v < |Variants(p, data)| && k < WindowCount(|Variants(p, data)[v]|)
    requires Grown(p, before, corpus, data) && FullVariant(p, corpus, data, v, k)
    ensures var after := corpus[FileName(p.digest(data), v, k * STEP) := Window(Variants(p, data)[v], k)];
      Grown(p, before, after, data) && FullVariant(p, after, data, v, k + 1)
  {
    var name, text := FileName(p.digest(data), v, k * STEP), Window(Variants(p, data)[v], k);
    var after := corpus[name := text];
    forall u, j | 0 <= u < |Variants(p, data)| && 0 <= j < WindowCount(|Variants(p, data)[u]|) && HoldsWindow(p, corpus, data, u, j)
      ensures HoldsWindow(p, after, data, u, j)
    {
      assert j * STEP == k * STEP ==> j == k;
    }
    forall j | 0 <= j < k + 1
      ensures HoldsWindow(p, after, data, v, j)
    {
      assert j < k ==> HoldsWindow(p, corpus, data, v, j);
    }
  }

  lemma StillStanding(p: Policy, before: Corpus, after: Corpus, ran: iset<Text>, data: Text, pending: set<nat>)
    requires Injective(p) && Grown(p, before, after, data) && forall sha :: sha in pending ==> Standing(p, before, ran, sha)
    ensures forall sha :: sha in pending ==> Standing(p, after, ran, sha)
  {
    hide Full, Grown;
    forall sha | sha in pending
      ensures Standing(p, after, ran, sha)
    {
      var other :| Stands(p, before, ran, sha, other);
      if Full(p, before, other) {
        GrownKeeps(p, before, after, data, other);
      }
      assert Stands(p, after, ran, sha, other);
    }
  }

  lemma PendingHaveRun(p: Policy, ran: iset<Text>, pending: set<nat>)
    requires forall sha :: sha in pending ==> Standing(p, map[], ran, sha)
    ensures forall sha :: sha in pending ==> Scanned(p, ran, sha)
  {
    forall sha | sha in pending
      ensures Scanned(p, ran, sha)
    {
      var data :| Stands(p, map[], ran, sha, data);
      if Full(p, map[], data) {
        FullHasFile(p, map[], data);
      }
    }
  }

  lemma NowScanned(p: Policy, corpus: Corpus, had: iset<Text>, ran: iset<Text>, pending: set<nat>, scanned: set<nat>)
    requires ran == had + iset data | Full(p, corpus, data)
    requires forall sha :: sha in pending ==> Standing(p, corpus, had, sha)
    requires forall sha :: sha in scanned ==> Scanned(p, had, sha)
    ensures forall sha :: sha in pending + scanned ==> Scanned(p, ran, sha)
  {
    hide Full;
    forall sha | sha in pending
      ensures Scanned(p, ran, sha)
    {
      var data :| Stands(p, corpus, had, sha, data);
      assert data in ran;
    }
    forall sha | sha in scanned
      ensures Scanned(p, ran, sha)
    {
      var data :| data in had && p.digest(data) == sha;
      assert data in ran;
    }
  }

  lemma ScannedStand(p: Policy, corpus: Corpus, ran: iset<Text>, pending: set<nat>)
    requires forall sha :: sha in pending ==> Scanned(p, ran, sha)
    ensures forall sha :: sha in pending ==> Standing(p, corpus, ran, sha)
  {
    hide Full;
    forall sha | sha in pending
      ensures Standing(p, corpus, ran, sha)
    {
      var data :| data in ran && p.digest(data) == sha;
      assert Stands(p, corpus, ran, sha, data);
    }
  }
}
