/** The name of a new message: a time stamp and slug, with a number when that is in use. */
module FileNames {
  import opened Text
  import opened AttachmentStore

  function Stem(base: string, suffix: nat): string {
    if suffix == 1 then base else base + "-" + Decimal(suffix)
  }

  /** A flat message must not share its stem with a bundle either. */
  predicate InUse(dir: set<string>, stem: string, hasAttachments: bool) {
    stem in dir || (!hasAttachments && stem + ".md" in dir)
  }

  lemma StemsDiffer(base: string, i: nat, j: nat)
    requires Stem(base, i) == Stem(base, j)
    ensures i == j
  {
    hide Decimal;
    if i != 1 && j != 1 {
      var a, b := Stem(base, i), Stem(base, j);
      assert a[|base| + 1..] == Decimal(i) && b[|base| + 1..] == Decimal(j);
      DecimalInjective(i, j);
    }
  }

  lemma StemHasNoDot(base: string, i: nat)
    requires '.' !in base
    ensures '.' !in Stem(base, i)
  {
    hide Decimal;
    DecimalDigits(i);
    assert '.' !in "-" && '.' !in Decimal(i);
  }

  /** A file that keeps suffix `i` from being used. */
  function Blocker(dir: set<string>, base: string, i: nat): string {
    if Stem(base, i) in dir then Stem(base, i) else Stem(base, i) + ".md"
  }

  function Blockers(dir: set<string>, base: string, n: nat): set<string> {
    if n == 0 then {} else Blockers(dir, base, n - 1) + {Blocker(dir, base, n)}
  }

  lemma BlockersDiffer(dir: set<string>, base: string, i: nat, j: nat)
    requires '.' !in base && Blocker(dir, base, i) == Blocker(dir, base, j)
    ensures i == j
  {
    hide Stem;
    var a, b := Stem(base, i), Stem(base, j);
    StemHasNoDot(base, i);
    StemHasNoDot(base, j);
    assert (a + ".md")[|a|] == '.' && (b + ".md")[|b|] == '.';
    assert (a + ".md")[..|a|] == a && (b + ".md")[..|b|] == b;
    assert a == b;
    StemsDiffer(base, i, j);
  }

  lemma {:induction false} BlockerCount(dir: set<string>, base: string, hasAttachments: bool, n: nat)
    requires '.' !in base && forall j :: 1 <= j <= n ==> InUse(dir, Stem(base, j), hasAttachments)
    ensures |Blockers(dir, base, n)| == n && Blockers(dir, base, n) <= dir
    ensures forall x :: x in Blockers(dir, base, n) ==> exists j :: 1 <= j <= n && x == Blocker(dir, base, j)
  {
    hide Blocker, Stem;
    if n > 0 {
      BlockerCount(dir, base, hasAttachments, n - 1);
      assert InUse(dir, Stem(base, n), hasAttachments);
      BlockerInUse(dir, base, hasAttachments, n);
      if Blocker(dir, base, n) in Blockers(dir, base, n - 1) {
        var j :| 1 <= j <= n - 1 && Blocker(dir, base, n) == Blocker(dir, base, j);
        BlockersDiffer(dir, base, n, j);
      }
    }
  }

  lemma BlockerInUse(dir: set<string>, base: string, hasAttachments: bool, i: nat)
    requires InUse(dir, Stem(base, i), hasAttachments)
    ensures Blocker(dir, base, i) in dir
  {
  }

  /** The first number not in use. Each number in use costs a file, so the search ends. */
  method AllocateFilename(dir: set<string>, base: string, hasAttachments: bool) returns (stem: string, suffix: nat)
    requires '.' !in base
    ensures 1 <= suffix <= |dir| + 1 && stem == Stem(base, suffix)
    ensures stem !in dir && (!hasAttachments ==> stem + ".md" !in dir)
    ensures forall j :: 1 <= j < suffix ==> InUse(dir, Stem(base, j), hasAttachments)
    ensures stem == if suffix == 1 then base else base + "-" + Decimal(suffix)
    ensures suffix > 1 ==> base in dir || (!hasAttachments && base + ".md" in dir)
    ensures forall j :: 2 <= j < suffix ==>
              || base + "-" + Decimal(j) in dir
              || (!hasAttachments && base + "-" + Decimal(j) + ".md" in dir)
  {
    hide Decimal;
    suffix := 1;
    while true
      invariant 1 <= suffix <= |dir| + 1
      invariant forall j :: 1 <= j < suffix ==> InUse(dir, Stem(base, j), hasAttachments)
      decreases |dir| - suffix
    {
      stem := Stem(base, suffix);
      if !InUse(dir, stem, hasAttachments) {
        assert suffix > 1 ==> InUse(dir, Stem(base, 1), hasAttachments);
        forall j | 2 <= j < suffix
          ensures InUse(dir, base + "-" + Decimal(j), hasAttachments)
        {
          assert InUse(dir, Stem(base, j), hasAttachments);
        }
        return;
      }
      BlockerCount(dir, base, hasAttachments, suffix);
      SubsetSize(Blockers(dir, base, suffix), dir);
      suffix := suffix + 1;
    }
  }
}
