/**
 * Building the canonical archive from a delivery: one immutable file for each canonical path, exact
 * duplicates set aside. The file system is a map from path to content, the checksum any function.
 */
module Archive {
  import opened Ordering
  import opened Text
  import opened Wire

  // ----- names

  function DigitsAtStart(s: string): (n: nat)
    ensures n <= |s|
  {
    if s != "" && IsDigit(s[0]) then 1 + DigitsAtStart(s[1..]) else 0
  }

  /** The length of a copy mark, such as " (2)", that opens the text and stands before a dot; 0 if none does. */
  function MarkLength(s: string): (n: nat)
    ensures n <= |s|
  {
    if |s| < 2 || s[..2] != " (" then 0
    else
      var digits := DigitsAtStart(s[2..]);
      if digits > 0 && |s| >= digits + 4 && s[digits + 2..digits + 4] == ")." then digits + 3 else 0
  }

  predicate HasCopyMark(s: string) {
    s != "" && (MarkLength(s) > 0 || HasCopyMark(s[1..]))
  }

  function WithoutCopyMarks(s: string): string
    decreases |s|
  {
    if s == "" then ""
    else if MarkLength(s) > 0 then WithoutCopyMarks(s[MarkLength(s)..])
    else [s[0]] + WithoutCopyMarks(s[1..])
  }

  function Decimal(n: nat): string {
    (if n < 10 then "" else Decimal(n / 10)) + [(n % 10) as char + '0']
  }

  function ThreeDigits(n: nat): string {
    (if n < 10 then "00" else if n < 100 then "0" else "") + Decimal(n)
  }

  /** One delivered file with the checksum taken when it was discovered. */
  datatype Delivery = Delivery(source: string, station: string, year: nat, day: nat, kind: string,
                               filename: string, checksum: string)
  {
    function Target(): string {
      "raw/nignet/" + Decimal(year) + "/" + station + "/" + ThreeDigits(day) + "/" + kind + "/"
      + WithoutCopyMarks(filename)
    }
  }

  // ----- which of several candidates is retained

  /** Unmarked names first, then the smaller source path. */
  predicate Preferred(a: Delivery, b: Delivery) {
    if HasCopyMark(a.filename) != HasCopyMark(b.filename) then HasCopyMark(b.filename)
    else LexLe(a.source, b.source)
  }

  /** The position of the first of a stable sort. */
  function FirstPreferred(candidates: seq<Delivery>): (k: nat)
    requires candidates != []
    ensures k < |candidates|
  {
    var last := |candidates| - 1;
    if last == 0 then 0
    else
      var k := FirstPreferred(candidates[..last]);
      if Preferred(candidates[k], candidates[last]) then k else last
  }

  function Retained(candidates: seq<Delivery>): Delivery
    requires candidates != []
  {
    candidates[FirstPreferred(candidates)]
  }

  /** Everything but position k. */
  function Skip(s: seq<Delivery>, k: nat): seq<Delivery> {
    if |s| <= k then s else s[..k] + s[k + 1..]
  }

  function Excluded(candidates: seq<Delivery>): seq<Delivery>
    requires candidates != []
  {
    Skip(candidates, FirstPreferred(candidates))
  }

  // ----- grouping

  function Candidates(delivery: seq<Delivery>, target: string): seq<Delivery> {
    if delivery == [] then []
    else
      var last := delivery[|delivery| - 1];
      Candidates(delivery[..|delivery| - 1], target) + if last.Target() == target then [last] else []
  }

  /** Every target once, in order of first appearance. */
  function Appearing(delivery: seq<Delivery>): seq<string> {
    if delivery == [] then []
    else
      var before := Appearing(delivery[..|delivery| - 1]);
      var target := delivery[|delivery| - 1].Target();
      if target in before then before else before + [target]
  }

  function Targets(delivery: seq<Delivery>): seq<string> {
    SortBy(LexLe, Appearing(delivery))
  }

  /** One content for each canonical path. */
  predicate Agree(candidates: seq<Delivery>) {
    forall a, b :: a in candidates && b in candidates ==> a.checksum == b.checksum
  }

  // ----- the file system

  type Content = seq<byte>

  datatype Node = File(content: Content) | Directory

  /** The provider's files as they are at copy time, and the checksum. */
  datatype Provider = Provider(files: map<string, Content>, checksum: Content -> string)

  datatype Problem =
    | Collision(target: string) | TargetConflict(target: string) | SourceUnreadable(source: string)
    | SourceChanged(source: string) | ChecksumMismatch(target: string)

  datatype Kept = Kept(files: map<string, Node>, problem: Option<Problem>)

  predicate Holds(p: Provider, files: map<string, Node>, target: string, checksum: string) {
    target in files && files[target].File? && p.checksum(files[target].content) == checksum
  }

  function CopyVerified(p: Provider, files: map<string, Node>, item: Delivery, target: string): Kept {
    if target in files then
      Kept(files, if Holds(p, files, target, item.checksum) then None else Some(TargetConflict(target)))
    else if item.source !in p.files then Kept(files, Some(SourceUnreadable(item.source)))
    else if p.checksum(p.files[item.source]) != item.checksum then Kept(files, Some(SourceChanged(item.source)))
    else Kept(files[target := File(p.files[item.source])], None)
  }

  /** Without copying, a file already there is still checked. */
  function Keep(p: Provider, copy: bool, files: map<string, Node>, item: Delivery, target: string): Kept {
    if copy then CopyVerified(p, files, item, target)
    else if target in files && !Holds(p, files, target, item.checksum) then Kept(files, Some(ChecksumMismatch(target)))
    else Kept(files, None)
  }

  // ----- the build

  datatype Duplicate = Duplicate(excluded: Delivery, retained: Delivery)

  function DuplicatesOf(excluded: seq<Delivery>, retained: Delivery): (r: seq<Duplicate>)
    ensures |r| == |excluded|
  {
    seq(|excluded|, i requires 0 <= i < |excluded| => Duplicate(excluded[i], retained))
  }

  datatype Result = Archived(records: seq<Delivery>, duplicates: seq<Duplicate>) | Failed(problem: Problem)

  datatype Built = Built(files: map<string, Node>, result: Result)

  function Build(p: Provider, copy: bool, delivery: seq<Delivery>, targets: seq<string>, files: map<string, Node>,
                 records: seq<Delivery>, duplicates: seq<Duplicate>): Built
  {
    if targets == [] then Built(files, Archived(records, duplicates))
    else
      var target := targets[0];
      var candidates := Candidates(delivery, target);
      if candidates == [] || !Agree(candidates) then Built(files, Failed(Collision(target)))
      else
        var retained := Retained(candidates);
        var kept := Keep(p, copy, files, retained, target);
        if kept.problem.Some? then Built(kept.files, Failed(kept.problem.value))
        else
          Build(p, copy, delivery, targets[1..], kept.files, records + [retained],
                duplicates + DuplicatesOf(Excluded(candidates), retained))
  }

  function BuildArchive(p: Provider, copy: bool, delivery: seq<Delivery>, files: map<string, Node>): Built {
    Build(p, copy, delivery, Targets(delivery), files, [], [])
  }

  method GroupByTarget(delivery: seq<Delivery>) returns (byTarget: map<string, seq<Delivery>>, targets: seq<string>)
    ensures targets == Appearing(delivery)
    ensures forall target <- targets :: target in byTarget && byTarget[target] == Candidates(delivery, target)
  {
    hide Delivery.Target;
    byTarget, targets := map[], [];
    for i := 0 to |delivery|
      invariant targets == Appearing(delivery[..i])
      invariant forall target <- targets :: target in byTarget
      invariant forall target :: (if target in byTarget then byTarget[target] else []) == Candidates(delivery[..i], target)
    {
      var item := delivery[i];
      assert delivery[..i + 1][..i] == delivery[..i];
      var target := item.Target();
      if target !in targets {
        targets := targets + [target];
      }
      byTarget := byTarget[target := (if target in byTarget then byTarget[target] else []) + [item]];
    }
    assert delivery[..|delivery|] == delivery;
  }

  lemma SkipSnoc(s: seq<Delivery>, x: Delivery, k: nat)
    ensures Skip(s + [x], k) == if |s| == k then Skip(s, k) else Skip(s, k) + [x]
  {}

  lemma SkipNone(k: nat)
    ensures Skip([], k) == []
  {}

  lemma DuplicatesSnoc(excluded: seq<Delivery>, x: Delivery, retained: Delivery)
    ensures DuplicatesOf(excluded + [x], retained) == DuplicatesOf(excluded, retained) + [Duplicate(x, retained)]
  {}

  method CollectDuplicates(candidates: seq<Delivery>, k: nat) returns (duplicates: seq<Duplicate>)
    requires k < |candidates|
    ensures duplicates == DuplicatesOf(Skip(candidates, k), candidates[k])
  {
    hide Skip, DuplicatesOf;
    duplicates := [];
    assert Skip(candidates[..0], k) == [] by {
      SkipNone(k);
    }
    for i := 0 to |candidates|
      invariant duplicates == DuplicatesOf(Skip(candidates[..i], k), candidates[k])
    {
      assert candidates[..i + 1] == candidates[..i] + [candidates[i]];
      SkipSnoc(candidates[..i], candidates[i], k);
      DuplicatesSnoc(Skip(candidates[..i], k), candidates[i], candidates[k]);
      if i != k {
        duplicates := duplicates + [Duplicate(candidates[i], candidates[k])];
      }
    }
    assert candidates[..|candidates|] == candidates;
  }

  lemma SortKeepsMembers(s: seq<string>)
    ensures forall x :: x in SortBy(LexLe, s) <==> x in s
  {
    LexIsPreorder();
    SortBySorts(LexLe, s);
    SameMembers(SortBy(LexLe, s), s);
  }

  class FileStore {
    var files: map<string, Node>
    const provider: Provider

    constructor (provider: Provider, files: map<string, Node>)
      ensures this.provider == provider && this.files == files
    {
      this.provider, this.files := provider, files;
    }

    method CopyVerifiedImmutable(item: Delivery, target: string) returns (problem: Option<Problem>)
      modifies this`files
      ensures Kept(files, problem) == CopyVerified(provider, old(files), item, target)
    {
      if target in files {
        if !files[target].File? || provider.checksum(files[target].content) != item.checksum {
          return Some(TargetConflict(target));
        }
        return None;
      }
      if item.source !in provider.files {
        return Some(SourceUnreadable(item.source));
      }
      var temporary := provider.files[item.source];
      if provider.checksum(temporary) != item.checksum {
        return Some(SourceChanged(item.source));
      }
      files := files[target := File(temporary)];
      return None;
    }

    method BuildCanonicalArchive(delivery: seq<Delivery>, copy: bool) returns (result: Result)
      modifies this`files
      ensures Built(files, result) == BuildArchive(provider, copy, delivery, old(files))
    {
      var byTarget, appearing := GroupByTarget(delivery);
      var targets := SortBy(LexLe, appearing);
      SortKeepsMembers(appearing);
      var records: seq<Delivery>, duplicates: seq<Duplicate> := [], [];
      for i := 0 to |targets|
        invariant Build(provider, copy, delivery, targets[i..], files, records, duplicates)
                  == BuildArchive(provider, copy, delivery, old(files))
      {
        var target := targets[i];
        assert targets[i..][0] == target && targets[i..][1..] == targets[i + 1..];
        var candidates := byTarget[target];
        if candidates == [] || !Agree(candidates) {
          return Failed(Collision(target));
        }
        var k := FirstPreferred(candidates);
        var retained := candidates[k];
        var problem: Option<Problem> := None;
        if copy {
          problem := CopyVerifiedImmutable(retained, target);
        } else if target in files
                  && (!files[target].File? || provider.checksum(files[target].content) != retained.checksum) {
          problem := Some(ChecksumMismatch(target));
        }
        if problem.Some? {
          return Failed(problem.value);
        }
        records := records + [retained];
        var excluded := CollectDuplicates(candidates, k);
        duplicates := duplicates + excluded;
      }
      result := Archived(records, duplicates);
    }
  }

  // ----- names and the retained candidate

  /** A name is changed exactly when it is marked as a copy. */
  lemma {:induction false} CopyMarkIff(s: string)
    ensures |WithoutCopyMarks(s)| <= |s| && (HasCopyMark(s) <==> |WithoutCopyMarks(s)| < |s|)
    ensures HasCopyMark(s) <==> WithoutCopyMarks(s) != s
    decreases |s|
  {
    if s != "" {
      if MarkLength(s) > 0 {
        CopyMarkIff(s[MarkLength(s)..]);
      } else {
        CopyMarkIff(s[1..]);
        assert s == [s[0]] + s[1..];
      }
    }
  }

  // ----- when a canonical name still has a mark

  /** A space and a number in brackets. */
  predicate Bracketed(s: string, n: nat) {
    && 4 <= n <= |s| && s[0] == ' ' && s[1] == '(' && s[n - 1] == ')'
    && forall i :: 2 <= i < n - 1 ==> IsDigit(s[i])
  }

  /** Somewhere a bracketed number stands directly before a copy mark. */
  predicate Stacked(s: string) {
    s != "" && (StacksHere(s) || Stacked(s[1..]))
  }

  predicate StacksHere(s: string) {
    exists n :: 4 <= n <= |s| && Bracketed(s, n) && MarkLength(s[n..]) > 0
  }

  lemma {:induction false} DigitsAre(s: string)
    ensures var d := DigitsAtStart(s);
            (forall i :: 0 <= i < d ==> IsDigit(s[i])) && (d < |s| ==> !IsDigit(s[d]))
  {
    if s != "" && IsDigit(s[0]) {
      DigitsAre(s[1..]);
      assert forall i :: 1 <= i < |s| ==> s[i] == s[1..][i - 1];
    }
  }

  lemma {:induction false} DigitsEnd(s: string, d: nat)
    requires d < |s| && (forall i :: 0 <= i < d ==> IsDigit(s[i])) && !IsDigit(s[d])
    ensures DigitsAtStart(s) == d
  {
    DigitsAre(s);
  }

  lemma MarkIsBracketed(s: string)
    requires MarkLength(s) > 0
    ensures var n := MarkLength(s);
            Bracketed(s, n) && n < |s| && s[n] == '.'
  {
    hide DigitsAtStart;
    var d := DigitsAtStart(s[2..]);
    DigitsAre(s[2..]);
    assert s[..2][0] == s[0] && s[..2][1] == s[1];
    assert s[d + 2..d + 4][0] == s[d + 2] && s[d + 2..d + 4][1] == s[d + 3];
    forall i | 2 <= i < d + 2 ensures IsDigit(s[i]) {
      assert s[i] == s[2..][i - 2];
    }
  }

  lemma BracketedIsMark(s: string, n: nat)
    requires Bracketed(s, n) && n < |s| && s[n] == '.'
    ensures MarkLength(s) == n
  {
    hide DigitsAtStart;
    var tail := s[2..];
    forall i | 0 <= i < n - 3 ensures IsDigit(tail[i]) {
      assert tail[i] == s[i + 2];
    }
    assert tail[n - 3] == s[n - 1];
    DigitsEnd(tail, n - 3);
    assert s[..2] == " (" && s[n - 1..n + 1] == ").";
  }

  /** A mark is a bracketed number before a dot. */
  lemma MarkIs(s: string, n: nat)
    requires n > 0
    ensures MarkLength(s) == n <==> Bracketed(s, n) && n < |s| && s[n] == '.'
  {
    hide MarkLength, Bracketed;
    if MarkLength(s) == n {
      MarkIsBracketed(s);
    } else if Bracketed(s, n) && n < |s| && s[n] == '.' {
      BracketedIsMark(s, n);
    }
  }

  lemma MarkStarts(s: string)
    ensures MarkLength(s) > 0 ==> s[0] == ' '
  {
    hide MarkLength;
    if MarkLength(s) > 0 {
      MarkIs(s, MarkLength(s));
    }
  }

  lemma {:induction false} CleanFront(s: string, k: nat)
    requires k <= |s| && forall i :: 0 <= i < k ==> MarkLength(s[i..]) == 0
    ensures WithoutCopyMarks(s) == s[..k] + WithoutCopyMarks(s[k..])
    decreases k
  {
    hide MarkLength;
    if k > 0 {
      assert s[0..] == s;
      assert forall i :: 0 <= i < k - 1 ==> s[1..][i..] == s[i + 1..];
      CleanFront(s[1..], k - 1);
    }
  }

  /** What a mark at the front leaves: the rest, which begins with a dot. */
  lemma MarkGoes(s: string)
    requires MarkLength(s) > 0
    ensures var rest := s[MarkLength(s)..];
            && WithoutCopyMarks(s) == WithoutCopyMarks(rest) && rest != "" && rest[0] == '.'
            && WithoutCopyMarks(rest) != "" && WithoutCopyMarks(rest)[0] == '.'
  {
    hide MarkLength;
    MarkIs(s, MarkLength(s));
    MarkStarts(s[MarkLength(s)..]);
  }

  lemma {:induction false} FirstMark(s: string) returns (k: nat)
    ensures k <= |s| && (forall i :: 0 <= i < k ==> MarkLength(s[i..]) == 0) && (k < |s| ==> MarkLength(s[k..]) > 0)
  {
    hide MarkLength;
    k := 0;
    while k < |s| && MarkLength(s[k..]) == 0
      invariant k <= |s| && forall i :: 0 <= i < k ==> MarkLength(s[i..]) == 0
    {
      k := k + 1;
    }
  }

  lemma NoMarkInside(s: string, n: nat)
    requires Bracketed(s, n)
    ensures forall i :: 1 <= i < n ==> MarkLength(s[i..]) == 0
  {
    hide MarkLength;
    forall i | 1 <= i < n ensures MarkLength(s[i..]) == 0 {
      MarkStarts(s[i..]);
      assert s[i..][0] == s[i] != ' ';
    }
  }

  lemma StackEmerges(s: string, n: nat)
    requires MarkLength(s) == 0 && Bracketed(s, n) && MarkLength(s[n..]) > 0
    ensures MarkLength(WithoutCopyMarks(s)) > 0
  {
    hide MarkLength, WithoutCopyMarks;
    NoMarkInside(s, n);
    assert s[0..] == s;
    CleanFront(s, n);
    MarkGoes(s[n..]);
    MarkIs(WithoutCopyMarks(s), n);
  }

  lemma SameBracket(s: string, t: string, n: nat)
    requires n <= |s| && n <= |t| && forall i :: 0 <= i < n ==> s[i] == t[i]
    ensures (Bracketed(s, n) <==> Bracketed(t, n)) && (Bracketed(s, n) ==> n >= 4)
  {}

  lemma NoDotInside(s: string, n: nat, k: nat)
    requires Bracketed(s, n) && k < |s| && s[k] == '.'
    ensures n <= k
  {}

  lemma EmergedStacks(s: string)
    requires s != "" && MarkLength(s) == 0 && MarkLength(WithoutCopyMarks(s)) > 0
    ensures StacksHere(s)
  {
    hide MarkLength, WithoutCopyMarks, Bracketed;
    var t := WithoutCopyMarks(s);
    var n := MarkLength(t);
    MarkIs(t, n);
    MarkIs(s, n);
    var k := FirstMark(s);
    assert s[0..] == s;
    CleanFront(s, k);
    assert forall i :: 0 <= i < k ==> s[i] == t[i];
    if k < |s| {
      MarkGoes(s[k..]);
      assert t[k] == '.';
      NoDotInside(t, n, k);
    } else {
      NothingToStrip();
      assert s[..k] == s && s[k..] == "";
    }
    SameBracket(s, t, n);
    assert MarkLength(s[n..]) > 0;
  }

  lemma NothingToStrip()
    ensures WithoutCopyMarks("") == ""
  {}

  lemma {:induction false} StackedBehind(s: string, k: nat)
    requires k <= |s| && forall i :: 0 <= i < k ==> s[i] != ' '
    ensures Stacked(s) <==> Stacked(s[k..])
    decreases k
  {
    hide MarkLength;
    if k > 0 {
      StackedBehind(s[1..], k - 1);
      assert s[1..][k - 1..] == s[k..];
    }
  }

  lemma OneBracket(s: string, n: nat, m: nat)
    requires Bracketed(s, n) && Bracketed(s, m)
    ensures n == m
  {}

  lemma MarkStacksNothing(s: string)
    requires MarkLength(s) > 0
    ensures !StacksHere(s)
  {
    hide MarkLength, Bracketed;
    var m := MarkLength(s);
    MarkIs(s, m);
    forall n | 4 <= n <= |s| && Bracketed(s, n) ensures MarkLength(s[n..]) == 0 {
      OneBracket(s, n, m);
      MarkStarts(s[n..]);
    }
  }

  lemma MarkIsNoStack(s: string)
    requires MarkLength(s) > 0
    ensures Stacked(s) <==> Stacked(s[MarkLength(s)..])
  {
    hide MarkLength, Stacked, StacksHere;
    var m := MarkLength(s);
    MarkIs(s, m);
    StackedBehind(s[1..], m - 1);
    assert s[1..][m - 1..] == s[m..];
    MarkStacksNothing(s);
    StackedUnfold(s);
  }

  lemma StackedUnfold(s: string)
    requires s != ""
    ensures Stacked(s) <==> StacksHere(s) || Stacked(s[1..])
  {
    hide StacksHere;
  }

  /** A canonical name still has a copy mark exactly when a bracketed number stood directly before one. */
  lemma {:induction false} MarkFreeIff(s: string)
    ensures HasCopyMark(WithoutCopyMarks(s)) <==> Stacked(s)
    decreases |s|
  {
    hide MarkLength, StacksHere, Bracketed;
    if s != "" {
      if MarkLength(s) > 0 {
        MarkFreeIff(s[MarkLength(s)..]);
        MarkIsNoStack(s);
      } else {
        MarkFreeIff(s[1..]);
        if MarkLength(WithoutCopyMarks(s)) > 0 {
          EmergedStacks(s);
        }
        if StacksHere(s) {
          HereEmerges(s);
        }
        assert WithoutCopyMarks(s)[1..] == WithoutCopyMarks(s[1..]);
      }
    }
  }

  lemma HereEmerges(s: string)
    requires MarkLength(s) == 0 && StacksHere(s)
    ensures MarkLength(WithoutCopyMarks(s)) > 0
  {
    hide MarkLength, WithoutCopyMarks, Bracketed;
    var n :| 4 <= n <= |s| && Bracketed(s, n) && MarkLength(s[n..]) > 0;
    StackEmerges(s, n);
  }

  lemma PlainFirst(s: string)
    requires s != "" && s[0] != ' '
    ensures WithoutCopyMarks(s) == [s[0]] + WithoutCopyMarks(s[1..])
  {
    MarkStarts(s);
  }

  /** A bracketed digit before a dot is removed, before another bracket it stays. */
  lemma OneDigitMark(s: string, rest: string)
    requires |s| == 4 && Bracketed(s, 4) && rest != ""
    ensures rest[0] == '.' ==> WithoutCopyMarks(s + rest) == WithoutCopyMarks(rest)
    ensures rest[0] == ' ' ==> WithoutCopyMarks(s + rest) == s + WithoutCopyMarks(rest)
  {
    hide MarkLength;
    var t := s + rest;
    SameBracket(s, t, 4);
    MarkIs(t, 4);
    assert t[4..] == rest && t[..4] == s;
    if rest[0] == ' ' {
      NoMarkInside(t, 4);
      if MarkLength(t) > 0 {
        MarkIs(t, MarkLength(t));
        OneBracket(t, 4, MarkLength(t));
      }
      assert t[0..] == t;
      CleanFront(t, 4);
    }
  }

  /** Exact copies under these two names are archived under two canonical paths. */
  lemma StackedMarkStays()
    ensures WithoutCopyMarks("x (1) (2).z") == "x (1).z" && WithoutCopyMarks("x (1).z") == "x.z"
  {
    hide MarkLength, WithoutCopyMarks;
    OneDigitMark(" (1)", ".z");
    OneDigitMark(" (2)", ".z");
    OneDigitMark(" (1)", " (2).z");
    PlainFirst(".z");
    PlainFirst("z");
    NothingToStrip();
    PlainFirst("x (1).z");
    PlainFirst("x (1) (2).z");
    assert " (1)" + ".z" == " (1).z" && " (2)" + ".z" == " (2).z" && " (1)" + " (2).z" == " (1) (2).z";
    assert "x (1).z"[1..] == " (1).z" && "x (1) (2).z"[1..] == " (1) (2).z" && ".z"[1..] == "z" && "z"[1..] == "";
  }

  lemma PreferredIsPreorder()
    ensures TotalPreorder(Preferred)
  {
    LexIsPreorder();
  }

  /** The retained candidate comes before all others, strictly before those delivered earlier. */
  lemma {:induction false} RetainedIsFirst(candidates: seq<Delivery>)
    requires candidates != []
    ensures forall c <- candidates :: Preferred(Retained(candidates), c)
    ensures forall c <- candidates[..FirstPreferred(candidates)] :: !Preferred(c, Retained(candidates))
  {
    hide Preferred;
    PreferredIsPreorder();
    var last := |candidates| - 1;
    var x := candidates[last];
    assert candidates == candidates[..last] + [x];
    if last > 0 {
      RetainedIsFirst(candidates[..last]);
      var y := Retained(candidates[..last]);
      if Preferred(y, x) {
        assert candidates[..last][..FirstPreferred(candidates)] == candidates[..FirstPreferred(candidates)];
      } else {
        assert Preferred(x, y);
      }
    }
  }

  /** A marked name is retained only if every candidate is marked; among equals the smallest source path is. */
  lemma UnmarkedIsRetained(candidates: seq<Delivery>)
    requires candidates != []
    ensures var kept := Retained(candidates);
            forall c <- candidates ::
              && (HasCopyMark(kept.filename) ==> HasCopyMark(c.filename))
              && (HasCopyMark(kept.filename) == HasCopyMark(c.filename) ==> LexLe(kept.source, c.source))
  {
    hide Retained, HasCopyMark, LexLe;
    RetainedIsFirst(candidates);
  }

  // ----- the canonical path

  /** The number that a text of digits stands for. */
  function NumberOf(s: string): nat
    requires forall c <- s :: IsDigit(c)
  {
    if s == "" then 0
    else
      var c := s[|s| - 1];
      assert c in s && IsDigit(c);
      10 * NumberOf(s[..|s| - 1]) + (c - '0') as nat
  }

  lemma NumberSnoc(s: string, c: char)
    requires IsDigit(c) && forall d <- s :: IsDigit(d)
    ensures (forall d <- s + [c] :: IsDigit(d)) && NumberOf(s + [c]) == 10 * NumberOf(s) + (c - '0') as nat
  {
    assert (s + [c])[..|s|] == s;
  }

  function DigitChar(d: nat): char
    requires d < 10
  {
    d as char + '0'
  }

  lemma DigitCharIs(d: nat)
    requires d < 10
    ensures IsDigit(DigitChar(d)) && (DigitChar(d) - '0') as nat == d && (DigitChar(d) == '0' <==> d == 0)
  {}

  lemma DecimalUnfold(n: nat)
    ensures Decimal(n) == (if n < 10 then "" else Decimal(n / 10)) + [DigitChar(n % 10)]
  {}

  lemma NumberOfNone()
    ensures NumberOf("") == 0
  {}

  /** Decimal digits without a leading zero. */
  lemma {:induction false} DecimalIs(n: nat)
    ensures (forall c <- Decimal(n) :: IsDigit(c)) && NumberOf(Decimal(n)) == n
    ensures Decimal(n) != "" && (n > 0 ==> Decimal(n)[0] != '0')
    decreases n
  {
    hide Decimal, NumberOf, DigitChar, IsDigit;
    DecimalUnfold(n);
    DigitCharIs(n % 10);
    var front := if n < 10 then "" else Decimal(n / 10);
    if n >= 10 {
      DecimalIs(n / 10);
    } else {
      NumberOfNone();
    }
    NumberSnoc(front, DigitChar(n % 10));
  }

  lemma {:induction false} DecimalLength(n: nat)
    ensures |Decimal(n)| == if n < 10 then 1 else |Decimal(n / 10)| + 1
    ensures |Decimal(n)| >= 1
  {
    hide Decimal, DigitChar;
    DecimalUnfold(n);
  }

  lemma {:induction false} LeadingZero(s: string)
    requires forall c <- s :: IsDigit(c)
    ensures (forall c <- "0" + s :: IsDigit(c)) && NumberOf("0" + s) == NumberOf(s)
    decreases |s|
  {
    if s == "" {
      NumberSnoc("", '0');
      assert "" + ['0'] == "0" + s;
    } else {
      var front, c := s[..|s| - 1], s[|s| - 1];
      LeadingZero(front);
      assert s == front + [c] && "0" + s == ("0" + front) + [c];
      NumberSnoc("0" + front, c);
      NumberSnoc(front, c);
    }
  }

  /** The day of the year in three digits. */
  lemma ThreeDigitsAre(n: nat)
    ensures (forall c <- ThreeDigits(n) :: IsDigit(c)) && NumberOf(ThreeDigits(n)) == n
    ensures n < 1000 ==> |ThreeDigits(n)| == 3
  {
    hide Decimal, NumberOf, IsDigit;
    DecimalIs(n);
    DecimalLength(n);
    DecimalLength(n / 10);
    DecimalLength(n / 100);
    LeadingZero(Decimal(n));
    LeadingZero("0" + Decimal(n));
    assert "00" + Decimal(n) == "0" + ("0" + Decimal(n));
    assert "" + Decimal(n) == Decimal(n);
  }

  /** The parts of a path in their order: the year as it is, the day in three digits, the name unmarked. */
  lemma PathOf(d: Delivery)
    ensures exists year: string, day: string ::
              && (forall c <- year + day :: IsDigit(c)) && NumberOf(year) == d.year && NumberOf(day) == d.day
              && (d.year > 0 ==> year != "" && year[0] != '0') && (d.day < 1000 ==> |day| == 3)
              && d.Target() == "raw/nignet/" + year + "/" + d.station + "/" + day + "/" + d.kind + "/"
                               + WithoutCopyMarks(d.filename)
  {
    hide WithoutCopyMarks, ThreeDigits, Decimal, NumberOf, IsDigit;
    DecimalIs(d.year);
    ThreeDigitsAre(d.day);
  }

  // ----- every canonical path once

  ghost predicate Distinct(s: seq<string>) { forall x :: multiset(s)[x] <= 1 }

  lemma DistinctTail(s: seq<string>)
    requires Distinct(s) && s != []
    ensures Distinct(s[1..]) && s[0] !in s[1..]
  {
    assert s == [s[0]] + s[1..];
    assert multiset(s) == multiset{s[0]} + multiset(s[1..]);
    forall x ensures multiset(s[1..])[x] <= 1 {
      assert multiset(s)[x] <= 1;
    }
    assert multiset(s)[s[0]] <= 1;
  }

  lemma {:induction false} CandidatesAre(delivery: seq<Delivery>, target: string)
    ensures forall d :: multiset(Candidates(delivery, target))[d]
                        == if d.Target() == target then multiset(delivery)[d] else 0
  {
    if delivery != [] {
      var last := |delivery| - 1;
      CandidatesAre(delivery[..last], target);
      assert delivery == delivery[..last] + [delivery[last]];
    }
  }

  lemma {:induction false} AppearingOnce(delivery: seq<Delivery>, target: string)
    ensures multiset(Appearing(delivery))[target] == if Candidates(delivery, target) == [] then 0 else 1
  {
    if delivery != [] {
      AppearingOnce(delivery[..|delivery| - 1], target);
    }
  }

  lemma TargetOnce(delivery: seq<Delivery>, target: string)
    ensures multiset(Targets(delivery))[target] == if Candidates(delivery, target) == [] then 0 else 1
    ensures target in Targets(delivery) <==> Candidates(delivery, target) != []
  {
    LexIsPreorder();
    SortBySorts(LexLe, Appearing(delivery));
    AppearingOnce(delivery, target);
  }

  lemma TargetsAreDistinct(delivery: seq<Delivery>)
    ensures Distinct(Targets(delivery))
    ensures forall target <- Targets(delivery) :: Candidates(delivery, target) != []
  {
    forall target
      ensures multiset(Targets(delivery))[target] <= 1
      ensures target in Targets(delivery) ==> Candidates(delivery, target) != []
    {
      TargetOnce(delivery, target);
    }
  }

  // ----- existing files are never altered

  /** Nothing that was there is lost or changed, and only verified copies at targets are new. */
  ghost predicate Extends(p: Provider, delivery: seq<Delivery>, targets: seq<string>,
                          before: map<string, Node>, after: map<string, Node>)
  {
    && (forall path <- before :: path in after && after[path] == before[path])
    && forall path <- after | path !in before ::
         path in targets && exists d <- delivery ::
           d.Target() == path && Holds(p, after, path, d.checksum)
           && d.source in p.files && after[path] == File(p.files[d.source])
  }

  lemma KeepExtends(p: Provider, copy: bool, delivery: seq<Delivery>, target: string, files: map<string, Node>)
    requires Candidates(delivery, target) != []
    ensures var item := Retained(Candidates(delivery, target));
            Extends(p, delivery, [target], files, Keep(p, copy, files, item, target).files)
  {
    hide Retained, Candidates;
    RetainedIsDelivered(delivery, target);
  }

  lemma ExtendsTransitive(p: Provider, delivery: seq<Delivery>, first: string, rest: seq<string>,
                          a: map<string, Node>, b: map<string, Node>, c: map<string, Node>)
    requires Extends(p, delivery, [first], a, b) && Extends(p, delivery, rest, b, c)
    ensures Extends(p, delivery, [first] + rest, a, c)
  {
    forall path <- c | path !in a
      ensures path in [first] + rest && exists d <- delivery ::
                d.Target() == path && Holds(p, c, path, d.checksum)
                && d.source in p.files && c[path] == File(p.files[d.source])
    {
      if path in b {
        var d :| d in delivery && d.Target() == path && Holds(p, b, path, d.checksum)
                 && d.source in p.files && b[path] == File(p.files[d.source]);
        assert c[path] == b[path];
      }
    }
  }

  lemma {:induction false} BuildExtends(p: Provider, copy: bool, delivery: seq<Delivery>, targets: seq<string>,
                                        files: map<string, Node>, records: seq<Delivery>, duplicates: seq<Duplicate>)
    ensures Extends(p, delivery, targets, files, Build(p, copy, delivery, targets, files, records, duplicates).files)
    decreases |targets|
  {
    hide Extends, Keep, Agree, Retained, Excluded, DuplicatesOf, Candidates;
    assert Extends(p, delivery, targets, files, files) by {
      ExtendsItself(p, delivery, targets, files);
    }
    if targets != [] {
      var target := targets[0];
      var candidates := Candidates(delivery, target);
      if candidates != [] && Agree(candidates) {
        var retained := Retained(candidates);
        var kept := Keep(p, copy, files, retained, target);
        var dups := duplicates + DuplicatesOf(Excluded(candidates), retained);
        var built := Build(p, copy, delivery, targets[1..], kept.files, records + [retained], dups);
        KeepExtends(p, copy, delivery, target, files);
        BuildExtends(p, copy, delivery, targets[1..], kept.files, records + [retained], dups);
        ExtendsTransitive(p, delivery, target, targets[1..], files, kept.files, built.files);
        ExtendsItself(p, delivery, targets[1..], kept.files);
        ExtendsTransitive(p, delivery, target, targets[1..], files, kept.files, kept.files);
        assert targets == [target] + targets[1..];
      }
    }
  }

  lemma ExtendsItself(p: Provider, delivery: seq<Delivery>, targets: seq<string>, files: map<string, Node>)
    ensures Extends(p, delivery, targets, files, files)
  {}

  /** A build, even one that fails, leaves every file that was there as it was. */
  lemma BuildNeverAlters(p: Provider, copy: bool, delivery: seq<Delivery>, files: map<string, Node>)
    ensures Extends(p, delivery, Targets(delivery), files, BuildArchive(p, copy, delivery, files).files)
    ensures !copy ==> BuildArchive(p, copy, delivery, files).files == files
  {
    BuildExtends(p, copy, delivery, Targets(delivery), files, [], []);
    if !copy {
      NoCopyNoChange(p, delivery, Targets(delivery), files, [], []);
    }
  }

  lemma {:induction false} NoCopyNoChange(p: Provider, delivery: seq<Delivery>, targets: seq<string>,
                                          files: map<string, Node>, records: seq<Delivery>, duplicates: seq<Duplicate>)
    ensures Build(p, false, delivery, targets, files, records, duplicates).files == files
    decreases |targets|
  {
    hide Agree, Holds;
    if targets != [] && Candidates(delivery, targets[0]) != [] {
      var candidates := Candidates(delivery, targets[0]);
      NoCopyNoChange(p, delivery, targets[1..], files, records + [Retained(candidates)],
                     duplicates + DuplicatesOf(Excluded(candidates), Retained(candidates)));
    }
  }

  lemma RetainedIsDelivered(delivery: seq<Delivery>, target: string)
    requires Candidates(delivery, target) != []
    ensures Retained(Candidates(delivery, target)) in delivery
    ensures Retained(Candidates(delivery, target)).Target() == target
  {
    var retained := Retained(Candidates(delivery, target));
    CandidatesAre(delivery, target);
    assert retained in multiset(Candidates(delivery, target));
    assert multiset(delivery)[retained] > 0;
  }

  // ----- every delivered file is accounted for

  function RetainedFor(delivery: seq<Delivery>, targets: seq<string>): seq<Delivery> {
    if targets == [] then []
    else
      var candidates := Candidates(delivery, targets[0]);
      (if candidates == [] then [] else [Retained(candidates)]) + RetainedFor(delivery, targets[1..])
  }

  function DuplicatesFor(delivery: seq<Delivery>, targets: seq<string>): seq<Duplicate> {
    if targets == [] then []
    else
      var candidates := Candidates(delivery, targets[0]);
      (if candidates == [] then [] else DuplicatesOf(Excluded(candidates), Retained(candidates)))
      + DuplicatesFor(delivery, targets[1..])
  }

  /** What a finished build has established for each target. */
  ghost predicate Settled(p: Provider, copy: bool, delivery: seq<Delivery>, target: string, files: map<string, Node>) {
    var candidates := Candidates(delivery, target);
    && candidates != [] && Agree(candidates)
    && (copy || target in files ==> Holds(p, files, target, Retained(candidates).checksum))
  }

  lemma {:induction false} BuildAccounts(p: Provider, copy: bool, delivery: seq<Delivery>, targets: seq<string>,
                                         files: map<string, Node>, records: seq<Delivery>, duplicates: seq<Duplicate>)
    requires Build(p, copy, delivery, targets, files, records, duplicates).result.Archived?
    ensures var built := Build(p, copy, delivery, targets, files, records, duplicates);
            && built.result.records == records + RetainedFor(delivery, targets)
            && built.result.duplicates == duplicates + DuplicatesFor(delivery, targets)
    decreases |targets|
  {
    hide Agree, Keep, Candidates, Retained, Excluded, DuplicatesOf;
    if targets != [] {
      var target := targets[0];
      var candidates := Candidates(delivery, target);
      var retained := Retained(candidates);
      var dups := DuplicatesOf(Excluded(candidates), retained);
      BuildAccounts(p, copy, delivery, targets[1..], Keep(p, copy, files, retained, target).files,
                    records + [retained], duplicates + dups);
      assert records + [retained] + RetainedFor(delivery, targets[1..])
          == records + ([retained] + RetainedFor(delivery, targets[1..]));
      assert duplicates + dups + DuplicatesFor(delivery, targets[1..])
          == duplicates + (dups + DuplicatesFor(delivery, targets[1..]));
    }
  }

  lemma {:induction false} BuildSettles(p: Provider, copy: bool, delivery: seq<Delivery>, targets: seq<string>,
                                        files: map<string, Node>, records: seq<Delivery>, duplicates: seq<Duplicate>)
    requires Distinct(targets)
    ensures var built := Build(p, copy, delivery, targets, files, records, duplicates);
            built.result.Archived? ==> forall target <- targets :: Settled(p, copy, delivery, target, built.files)
    decreases |targets|
  {
    hide Agree, Candidates, Retained, Excluded, DuplicatesOf, Extends;
    if targets != [] {
      var target := targets[0];
      var candidates := Candidates(delivery, target);
      if candidates != [] && Agree(candidates) {
        var retained := Retained(candidates);
        var kept := Keep(p, copy, files, retained, target);
        var dups := duplicates + DuplicatesOf(Excluded(candidates), retained);
        DistinctTail(targets);
        BuildSettles(p, copy, delivery, targets[1..], kept.files, records + [retained], dups);
        var built := Build(p, copy, delivery, targets[1..], kept.files, records + [retained], dups);
        BuildExtends(p, copy, delivery, targets[1..], kept.files, records + [retained], dups);
        ExtendsKeeps(p, delivery, targets[1..], kept.files, built.files, target);
        assert targets == [target] + targets[1..];
      }
    }
  }

  lemma ExtendsKeeps(p: Provider, delivery: seq<Delivery>, targets: seq<string>,
                     before: map<string, Node>, after: map<string, Node>, path: string)
    requires Extends(p, delivery, targets, before, after)
    ensures path in before ==> path in after && after[path] == before[path]
    ensures path !in before && path !in targets ==> path !in after
  {}

  function ExcludedOf(duplicates: seq<Duplicate>): (r: seq<Delivery>)
    ensures |r| == |duplicates|
  {
    seq(|duplicates|, i requires 0 <= i < |duplicates| => duplicates[i].excluded)
  }

  lemma ExcludedOfSum(a: seq<Duplicate>, b: seq<Duplicate>)
    ensures ExcludedOf(a + b) == ExcludedOf(a) + ExcludedOf(b)
  {}

  lemma ExcludedOfAll(excluded: seq<Delivery>, retained: Delivery)
    ensures ExcludedOf(DuplicatesOf(excluded, retained)) == excluded
  {}

  lemma SplitCandidates(candidates: seq<Delivery>)
    requires candidates != []
    ensures multiset([Retained(candidates)] + Excluded(candidates)) == multiset(candidates)
  {
    var k := FirstPreferred(candidates);
    assert candidates == candidates[..k] + [candidates[k]] + candidates[k + 1..];
  }

  /** One group more adds its candidates. */
  lemma GroupAddsUp(candidates: seq<Delivery>, retained: seq<Delivery>, duplicates: seq<Duplicate>)
    requires candidates != []
    ensures var more := DuplicatesOf(Excluded(candidates), Retained(candidates));
            multiset([Retained(candidates)] + retained + ExcludedOf(more + duplicates))
            == multiset(candidates) + multiset(retained + ExcludedOf(duplicates))
  {
    hide Retained, Excluded, DuplicatesOf, ExcludedOf;
    SplitCandidates(candidates);
    ExcludedOfAll(Excluded(candidates), Retained(candidates));
    ExcludedOfSum(DuplicatesOf(Excluded(candidates), Retained(candidates)), duplicates);
  }

  lemma GroupsUnfold(delivery: seq<Delivery>, target: string, rest: seq<string>)
    ensures var candidates := Candidates(delivery, target);
            && RetainedFor(delivery, [target] + rest)
               == (if candidates == [] then [] else [Retained(candidates)]) + RetainedFor(delivery, rest)
            && DuplicatesFor(delivery, [target] + rest)
               == (if candidates == [] then [] else DuplicatesOf(Excluded(candidates), Retained(candidates)))
                  + DuplicatesFor(delivery, rest)
  {
    hide Retained, Excluded, Candidates, DuplicatesOf;
    assert ([target] + rest)[1..] == rest;
  }

  lemma NoGroups(delivery: seq<Delivery>)
    ensures RetainedFor(delivery, []) + ExcludedOf(DuplicatesFor(delivery, [])) == []
  {}

  lemma {:induction false} GroupsAddUp(delivery: seq<Delivery>, targets: seq<string>, d: Delivery)
    requires Distinct(targets)
    ensures multiset(RetainedFor(delivery, targets) + ExcludedOf(DuplicatesFor(delivery, targets)))[d]
            == if d.Target() in targets then multiset(delivery)[d] else 0
    decreases |targets|
  {
    hide Retained, Excluded, Candidates, DuplicatesOf, ExcludedOf, RetainedFor, DuplicatesFor, Delivery.Target;
    if targets == [] {
      NoGroups(delivery);
    } else {
      var target, rest := targets[0], targets[1..];
      assert targets == [target] + rest;
      DistinctTail(targets);
      GroupsAddUp(delivery, rest, d);
      GroupsUnfold(delivery, target, rest);
      CandidatesAre(delivery, target);
      var candidates := Candidates(delivery, target);
      if candidates != [] {
        GroupAddsUp(candidates, RetainedFor(delivery, rest), DuplicatesFor(delivery, rest));
      } else {
        assert multiset(candidates)[d] == 0;
        assert [] + RetainedFor(delivery, rest) == RetainedFor(delivery, rest);
        assert [] + DuplicatesFor(delivery, rest) == DuplicatesFor(delivery, rest);
      }
    }
  }

  lemma AllGroupsAddUp(delivery: seq<Delivery>, d: Delivery)
    ensures var targets := Targets(delivery);
            multiset(RetainedFor(delivery, targets) + ExcludedOf(DuplicatesFor(delivery, targets)))[d]
            == multiset(delivery)[d]
  {
    hide Targets, Candidates, RetainedFor, DuplicatesFor, ExcludedOf, Distinct, Delivery.Target;
    TargetsAreDistinct(delivery);
    GroupsAddUp(delivery, Targets(delivery), d);
    TargetOnce(delivery, d.Target());
    CandidatesAre(delivery, d.Target());
  }

  /** Every delivered file is one record or one excluded duplicate, and nothing else is listed. */
  lemma EveryFileAccountedFor(p: Provider, copy: bool, delivery: seq<Delivery>, files: map<string, Node>)
    requires BuildArchive(p, copy, delivery, files).result.Archived?
    ensures var result := BuildArchive(p, copy, delivery, files).result;
            multiset(result.records + ExcludedOf(result.duplicates)) == multiset(delivery)
  {
    hide Build, Targets, RetainedFor, DuplicatesFor, ExcludedOf;
    var targets := Targets(delivery);
    var result := BuildArchive(p, copy, delivery, files).result;
    BuildAccounts(p, copy, delivery, targets, files, [], []);
    assert [] + RetainedFor(delivery, targets) == RetainedFor(delivery, targets);
    assert [] + DuplicatesFor(delivery, targets) == DuplicatesFor(delivery, targets);
    forall d ensures multiset(result.records + ExcludedOf(result.duplicates))[d] == multiset(delivery)[d] {
      AllGroupsAddUp(delivery, d);
    }
  }

  lemma {:induction false} RetainedInOrder(delivery: seq<Delivery>, targets: seq<string>)
    requires forall target <- targets :: Candidates(delivery, target) != []
    ensures |RetainedFor(delivery, targets)| == |targets|
    ensures forall i :: 0 <= i < |targets| ==> RetainedFor(delivery, targets)[i] == Retained(Candidates(delivery, targets[i]))
    decreases |targets|
  {
    hide Retained, Candidates;
    if targets != [] {
      assert targets == [targets[0]] + targets[1..];
      RetainedInOrder(delivery, targets[1..]);
    }
  }

  /**
   * There is one record for each canonical path, in order of path; all files delivered for the path
   * carry the record's checksum, and after copying so does the file in the archive.
   */
  lemma OneRecordPerPath(p: Provider, copy: bool, delivery: seq<Delivery>, files: map<string, Node>)
    requires BuildArchive(p, copy, delivery, files).result.Archived?
    ensures var built := BuildArchive(p, copy, delivery, files);
            var records := built.result.records;
            && |records| == |Targets(delivery)|
            && forall i :: 0 <= i < |records| ==>
                 && records[i].Target() == Targets(delivery)[i]
                 && (forall d <- delivery | d.Target() == records[i].Target() :: d.checksum == records[i].checksum)
                 && (copy ==> Holds(p, built.files, records[i].Target(), records[i].checksum))
  {
    hide Build, Holds;
    var targets := Targets(delivery);
    var built := BuildArchive(p, copy, delivery, files);
    TargetsAreDistinct(delivery);
    BuildAccounts(p, copy, delivery, targets, files, [], []);
    assert [] + RetainedFor(delivery, targets) == RetainedFor(delivery, targets);
    BuildSettles(p, copy, delivery, targets, files, [], []);
    RetainedInOrder(delivery, targets);
    forall i | 0 <= i < |targets|
      ensures var r := built.result.records[i];
              && r.Target() == targets[i]
              && (forall d <- delivery | d.Target() == r.Target() :: d.checksum == r.checksum)
              && (copy ==> Holds(p, built.files, r.Target(), r.checksum))
    {
      assert Settled(p, copy, delivery, targets[i], built.files);
      RetainedIsDelivered(delivery, targets[i]);
      AgreementOf(delivery, targets[i]);
    }
  }

  lemma AgreementOf(delivery: seq<Delivery>, target: string)
    requires Candidates(delivery, target) != [] && Agree(Candidates(delivery, target))
    ensures forall d <- delivery | d.Target() == target :: d.checksum == Retained(Candidates(delivery, target)).checksum
  {
    var candidates := Candidates(delivery, target);
    CandidatesAre(delivery, target);
    forall d <- delivery | d.Target() == target ensures d in candidates {
      assert d in multiset(delivery);
      assert multiset(candidates)[d] > 0;
    }
  }

  // ----- building again

  lemma {:induction false} SettledBuildIsStill(p: Provider, copy: bool, delivery: seq<Delivery>, targets: seq<string>,
                                               files: map<string, Node>, records: seq<Delivery>, duplicates: seq<Duplicate>)
    requires forall target <- targets :: Settled(p, copy, delivery, target, files)
    ensures Build(p, copy, delivery, targets, files, records, duplicates)
            == Built(files, Archived(records + RetainedFor(delivery, targets), duplicates + DuplicatesFor(delivery, targets)))
    decreases |targets|
  {
    hide Agree, Candidates, Retained, Excluded, DuplicatesOf;
    if targets != [] {
      var target := targets[0];
      var candidates := Candidates(delivery, target);
      assert Settled(p, copy, delivery, target, files);
      var dups := DuplicatesOf(Excluded(candidates), Retained(candidates));
      SettledBuildIsStill(p, copy, delivery, targets[1..], files, records + [Retained(candidates)], duplicates + dups);
      assert records + [Retained(candidates)] + RetainedFor(delivery, targets[1..])
          == records + ([Retained(candidates)] + RetainedFor(delivery, targets[1..]));
      assert duplicates + dups + DuplicatesFor(delivery, targets[1..])
          == duplicates + (dups + DuplicatesFor(delivery, targets[1..]));
    } else {
      assert records + [] == records && duplicates + [] == duplicates;
    }
  }

  /** A second build reports the same and changes nothing, even if the delivery is gone by then. */
  lemma BuildingTwiceChangesNothing(p: Provider, later: Provider, copy: bool, delivery: seq<Delivery>, files: map<string, Node>)
    requires BuildArchive(p, copy, delivery, files).result.Archived? && later.checksum == p.checksum
    ensures var built := BuildArchive(p, copy, delivery, files);
            BuildArchive(later, copy, delivery, built.files) == built
  {
    hide Build;
    var targets := Targets(delivery);
    var built := BuildArchive(p, copy, delivery, files);
    TargetsAreDistinct(delivery);
    BuildAccounts(p, copy, delivery, targets, files, [], []);
    BuildSettles(p, copy, delivery, targets, files, [], []);
    forall target <- targets ensures Settled(later, copy, delivery, target, built.files) {
      assert Settled(p, copy, delivery, target, built.files);
    }
    SettledBuildIsStill(later, copy, delivery, targets, built.files, [], []);
  }

  // ----- when a build succeeds

  /** A file already there has the right content, or else can be copied. */
  predicate Ready(p: Provider, copy: bool, files: map<string, Node>, item: Delivery, target: string) {
    if target in files then Holds(p, files, target, item.checksum)
    else copy ==> item.source in p.files && p.checksum(p.files[item.source]) == item.checksum
  }

  ghost predicate GroupReady(p: Provider, copy: bool, delivery: seq<Delivery>, files: map<string, Node>, target: string) {
    var candidates := Candidates(delivery, target);
    candidates != [] && Agree(candidates) && Ready(p, copy, files, Retained(candidates), target)
  }

  lemma KeepsIffReady(p: Provider, copy: bool, files: map<string, Node>, item: Delivery, target: string)
    ensures Keep(p, copy, files, item, target).problem.None? <==> Ready(p, copy, files, item, target)
    ensures forall path | path != target :: var after := Keep(p, copy, files, item, target).files;
              (path in after <==> path in files) && (path in after ==> after[path] == files[path])
  {}

  lemma {:induction false} BuildSucceedsIff(p: Provider, copy: bool, delivery: seq<Delivery>, targets: seq<string>,
                                            files: map<string, Node>, records: seq<Delivery>, duplicates: seq<Duplicate>)
    requires Distinct(targets)
    ensures Build(p, copy, delivery, targets, files, records, duplicates).result.Archived?
            <==> forall target <- targets :: GroupReady(p, copy, delivery, files, target)
    decreases |targets|
  {
    hide Agree, Candidates, Retained, Excluded, DuplicatesOf, Keep;
    if targets != [] {
      var target := targets[0];
      assert targets == [target] + targets[1..];
      assert target in targets;
      var candidates := Candidates(delivery, target);
      if candidates != [] && Agree(candidates) {
        var retained := Retained(candidates);
        var kept := Keep(p, copy, files, retained, target);
        var dups := duplicates + DuplicatesOf(Excluded(candidates), retained);
        DistinctTail(targets);
        KeepsIffReady(p, copy, files, retained, target);
        assert kept.problem.None? <==> GroupReady(p, copy, delivery, files, target);
        BuildSucceedsIff(p, copy, delivery, targets[1..], kept.files, records + [retained], dups);
        forall other <- targets[1..]
          ensures GroupReady(p, copy, delivery, kept.files, other) <==> GroupReady(p, copy, delivery, files, other)
        {}
      }
    }
  }

  /**
   * A build succeeds exactly when no two files for one path differ in checksum and every path is
   * either there already with that checksum or, when copying, can be filled from its retained file.
   */
  lemma SucceedsIff(p: Provider, copy: bool, delivery: seq<Delivery>, files: map<string, Node>)
    ensures BuildArchive(p, copy, delivery, files).result.Archived?
            <==> && (forall a, b :: a in delivery && b in delivery && a.Target() == b.Target() ==> a.checksum == b.checksum)
                 && forall target <- Targets(delivery) ::
                      Candidates(delivery, target) != []
                      && Ready(p, copy, files, Retained(Candidates(delivery, target)), target)
  {
    hide Build, Ready, Retained;
    var targets := Targets(delivery);
    TargetsAreDistinct(delivery);
    BuildSucceedsIff(p, copy, delivery, targets, files, [], []);
    AgreeEverywhereIff(delivery);
  }

  lemma CandidateIff(delivery: seq<Delivery>, target: string, d: Delivery)
    ensures d in Candidates(delivery, target) <==> d in delivery && d.Target() == target
  {
    CandidatesAre(delivery, target);
    assert d in Candidates(delivery, target) <==> multiset(Candidates(delivery, target))[d] > 0;
    assert d in delivery <==> multiset(delivery)[d] > 0;
  }

  lemma AgreeEverywhereIff(delivery: seq<Delivery>)
    ensures (forall a, b :: a in delivery && b in delivery && a.Target() == b.Target() ==> a.checksum == b.checksum)
            <==> forall target <- Targets(delivery) :: Agree(Candidates(delivery, target))
  {
    hide Candidates, Targets;
    forall d, target ensures d in Candidates(delivery, target) <==> d in delivery && d.Target() == target {
      CandidateIff(delivery, target, d);
    }
    if forall target <- Targets(delivery) :: Agree(Candidates(delivery, target)) {
      forall a, b | a in delivery && b in delivery && a.Target() == b.Target() ensures a.checksum == b.checksum {
        var candidates := Candidates(delivery, a.Target());
        assert a in candidates && b in candidates;
        TargetOnce(delivery, a.Target());
      }
    }
  }
}
