/**
 * The rename orchestrator: one pass over a snapshot of the directory's
 * listing. Each entry whose lower-cased name ends in ".pdf" has its payload
 * extracted; a file with no payload, one already named after its payload and
 * one whose target name exists are left alone, and every other file is
 * renamed to its payload plus ".pdf". Renames change the namespace that later
 * entries of the same pass see.
 */
module RenameOrchestrator {
  import opened Wrappers
  import opened RegionDetector
  import opened DecoderChain

  /** The bytes of a file. */
  type Content = seq<bv8>

  /** The directory's namespace: each entry name and the content under it. */
  type Files = map<string, Content>

  /** The per-entry outcome that the pass reports. */
  datatype Outcome =
    | NotPdf
    | NotFound
    | AlreadyCorrect
    | Conflict(target: string)
    | Renamed(target: string)

  function LowerChar(c: char): char {
    if 'A' <= c <= 'Z' then (c as int + 32) as char else c
  }

  /** Lower-casing, on ASCII letters. */
  function Lower(s: string): string {
    seq(|s|, i requires 0 <= i < |s| => LowerChar(s[i]))
  }

  predicate EndsWith(s: string, suffix: string) {
    |suffix| <= |s| && s[|s| - |suffix|..] == suffix
  }

  /** The filter of the pass: the lower-cased name ends in ".pdf". */
  predicate IsPdf(name: string) {
    EndsWith(Lower(name), ".pdf")
  }

  /** The name a file with this payload is renamed to. */
  function Target(payload: string): string {
    payload + ".pdf"
  }

  /** A name without path separators, so that joining it to the directory names an entry of that directory. */
  predicate PlainName(s: string) {
    '/' !in s && '\\' !in s
  }

  /** Every payload the PDFs can carry is a plain name. */
  ghost predicate PlainPayloads(pages: Content -> Page) {
    forall c :: Truthy(ExtractPayload(pages(c))) ==> PlainName(ExtractPayload(pages(c)).value)
  }

  /** The payload of the entry `name`; an entry that is not there cannot be opened and has none. */
  function PayloadOf(files: Files, pages: Content -> Page, name: string): Option<string> {
    if name in files then ExtractPayload(pages(files[name])) else None
  }

  /**
   * The decision for one listed entry against the namespace as it is when the
   * entry's turn comes.
   */
  function Decide(files: Files, pages: Content -> Page, name: string): (o: Outcome)
    ensures o.NotPdf? <==> !IsPdf(name)
    ensures o.NotFound? <==> IsPdf(name) && !Truthy(PayloadOf(files, pages, name))
    ensures o.Renamed? ==> name in files && o.target !in files && o.target != name && IsPdf(o.target)
    ensures o.Conflict? ==> name in files && o.target in files && o.target != name
    ensures IsPdf(name) && Truthy(PayloadOf(files, pages, name)) ==>
      var t := Target(PayloadOf(files, pages, name).value);
      && (o == AlreadyCorrect <==> t == name)
      && (o == Conflict(t) <==> t != name && t in files)
      && (o == Renamed(t) <==> t != name && t !in files)
  {
    if !IsPdf(name) then NotPdf
    else
      var payload := PayloadOf(files, pages, name);
      if !Truthy(payload) then NotFound
      else
        var target := Target(payload.value);
        TargetIsPdf(payload.value);
        if target == name then AlreadyCorrect
        else if target in files then Conflict(target)
        else Renamed(target)
  }

  /**
   * The namespace after the entry `src` is renamed to the free name `dst`:
   * `src` is gone, `dst` holds its content, every other entry is as it was,
   * and no content is lost.
   */
  function Move(files: Files, src: string, dst: string): (r: Files)
    requires src in files && dst !in files
    ensures r.Keys == files.Keys - {src} + {dst}
    ensures r[dst] == files[src]
    ensures forall n :: n in files && n != src ==> r[n] == files[n]
    ensures |r| == |files|
    ensures r.Values == files.Values
  {
    var r := (files - {src})[dst := files[src]];
    assert |files.Keys - {src}| == |files.Keys| - 1;
    assert r.Keys == (files.Keys - {src}) + {dst};
    assert forall v | v in files.Values :: v in r.Values by {
      forall v | v in files.Values ensures v in r.Values {
        var n :| n in files && files[n] == v;
        if n == src { assert r[dst] == v; } else { assert r[n] == v; }
      }
    }
    r
  }

  /**
   * A rename as POSIX systems perform it: an existing entry under `dst` is
   * replaced without an error.
   */
  function RenameReplacing(files: Files, src: string, dst: string): (r: Files)
    requires src in files
    ensures r.Keys == files.Keys - {src} + {dst}
    ensures r[dst] == files[src]
    ensures forall n :: n in files && n != src && n != dst ==> r[n] == files[n]
    ensures dst in files && dst != src ==> |r| == |files| - 1
  {
    var r := (files - {src})[dst := files[src]];
    assert r.Keys == files.Keys - {src} + {dst};
    assert dst in files && dst != src ==> r.Keys == files.Keys - {src} && |files.Keys - {src}| == |files.Keys| - 1;
    r
  }

  /** With replacing renames, "A.pdf" carrying "X" destroys the existing "X.pdf". */
  lemma ReplacingRenameLosesTarget()
    ensures var r := RenameReplacing(map["A.pdf" := [1], "X.pdf" := [2]], "A.pdf", "X.pdf");
      |r| == 1 && [2] !in r.Values
  {
    var r := RenameReplacing(map["A.pdf" := [1], "X.pdf" := [2]], "A.pdf", "X.pdf");
    assert r == map["X.pdf" := [1]];
    assert forall k | k in r :: r[k] == [1];
  }

  /** The namespace after one entry's outcome: only a rename changes it. */
  function Apply(files: Files, name: string, o: Outcome): (r: Files)
    requires o.Renamed? ==> name in files && o.target !in files
    ensures !o.Renamed? ==> r == files
    ensures o.Renamed? ==> name !in r && o.target in r && r[o.target] == files[name]
    ensures forall n :: n in files && n != name ==> n in r && r[n] == files[n]
    ensures |r| == |files| && r.Values == files.Values
  {
    if o.Renamed? then Move(files, name, o.target) else files
  }

  /** The whole pass over `listing`: the final namespace and the outcome of each entry, in listing order. */
  function Run(files: Files, listing: seq<string>, pages: Content -> Page): (r: (Files, seq<Outcome>))
    ensures |r.1| == |listing|
    decreases listing
  {
    if listing == [] then (files, [])
    else
      var o := Decide(files, pages, listing[0]);
      var rest := Run(Apply(files, listing[0], o), listing[1..], pages);
      (rest.0, [o] + rest.1)
  }

  /** One step of the pass: the first entry is decided, then the rest run on what it left. */
  lemma RunFirst(files: Files, listing: seq<string>, pages: Content -> Page)
    requires listing != []
    ensures var o := Decide(files, pages, listing[0]);
      var rest := Run(Apply(files, listing[0], o), listing[1..], pages);
      Run(files, listing, pages) == (rest.0, [o] + rest.1)
  {
  }

  /** An entry whose turn needs no rename: it is no PDF, its payload is falsy, or it is already named after it. */
  predicate InPlace(name: string, content: Content, pages: Content -> Page) {
    var payload := ExtractPayload(pages(content));
    IsPdf(name) ==> !Truthy(payload) || Target(payload.value) == name
  }

  /** Every entry of the directory is in place. */
  ghost predicate Settled(files: Files, pages: Content -> Page) {
    forall n | n in files :: InPlace(n, files[n], pages)
  }

  // ---------------------------------------------------------------------------
  // The filter
  // ---------------------------------------------------------------------------

  /** The ".pdf" test ignores the case of the last four characters and nothing else. */
  lemma IsPdfIff(name: string)
    ensures IsPdf(name) <==>
      |name| >= 4 && name[|name| - 4] == '.' && name[|name| - 3] in "pP" &&
      name[|name| - 2] in "dD" && name[|name| - 1] in "fF"
  {
    var l := Lower(name);
    if |name| >= 4 {
      var k := |name| - 4;
      assert l[k..] == [l[k], l[k + 1], l[k + 2], l[k + 3]];
    }
  }

  /** Every rename target passes the filter. */
  lemma TargetIsPdf(payload: string)
    ensures IsPdf(Target(payload))
  {
    IsPdfIff(Target(payload));
  }

  /** Exactly the listed entries that fail the filter are reported as such. */
  lemma PdfFilter(files: Files, listing: seq<string>, pages: Content -> Page, i: nat)
    requires i < |listing|
    ensures Run(files, listing, pages).1[i].NotPdf? <==> !IsPdf(listing[i])
  {
    EachEntrySeesEarlierRenames(files, listing, pages, i);
  }

  /** A listing without PDFs changes nothing, and its result does not depend on what any file decodes to. */
  lemma {:induction false} NonPdfListingNeverDecoded(files: Files, listing: seq<string>, pages1: Content -> Page, pages2: Content -> Page)
    requires forall i :: 0 <= i < |listing| ==> !IsPdf(listing[i])
    ensures Run(files, listing, pages1) == Run(files, listing, pages2)
    ensures Run(files, listing, pages1).0 == files
    ensures forall i :: 0 <= i < |listing| ==> Run(files, listing, pages1).1[i] == NotPdf
    decreases listing
  {
    if listing != [] {
      assert !IsPdf(listing[0]);
      NonPdfListingNeverDecoded(files, listing[1..], pages1, pages2);
      var tail := Run(files, listing[1..], pages1).1;
      assert forall i :: 1 <= i < |listing| ==> Run(files, listing, pages1).1[i] == tail[i - 1];
    }
  }

  /** Entries that fail the filter keep their names and contents through the pass. */
  lemma {:induction false} NonPdfEntriesUntouched(files: Files, listing: seq<string>, pages: Content -> Page, n: string)
    requires !IsPdf(n)
    ensures n in Run(files, listing, pages).0 <==> n in files
    ensures n in files ==> Run(files, listing, pages).0[n] == files[n]
    decreases listing
  {
    if listing != [] {
      var o := Decide(files, pages, listing[0]);
      NonPdfEntriesUntouched(Apply(files, listing[0], o), listing[1..], pages, n);
    }
  }

  // ---------------------------------------------------------------------------
  // Order and frame
  // ---------------------------------------------------------------------------

  /** A pass over `a + b` is the pass over `a` followed by the pass over `b` on what `a` left. */
  lemma {:induction false} RunSplit(files: Files, a: seq<string>, b: seq<string>, pages: Content -> Page)
    ensures var first := Run(files, a, pages);
      var second := Run(first.0, b, pages);
      Run(files, a + b, pages) == (second.0, first.1 + second.1)
    decreases a
  {
    if a == [] {
      assert a + b == b;
      assert Run(files, a, pages) == (files, []);
      assert [] + Run(files, b, pages).1 == Run(files, b, pages).1;
    } else {
      assert (a + b)[0] == a[0];
      assert (a + b)[1..] == a[1..] + b;
      var o := Decide(files, pages, a[0]);
      var next := Apply(files, a[0], o);
      RunSplit(next, a[1..], b, pages);
      var first', second := Run(next, a[1..], pages), Run(Run(files, a, pages).0, b, pages);
      assert Run(files, a, pages) == (first'.0, [o] + first'.1);
      assert ([o] + first'.1) + second.1 == [o] + (first'.1 + second.1);
    }
  }

  /** Each entry is decided against the namespace left by all entries before it, renames included. */
  lemma EachEntrySeesEarlierRenames(files: Files, listing: seq<string>, pages: Content -> Page, i: nat)
    requires i < |listing|
    ensures Run(files, listing, pages).1[i] == Decide(Run(files, listing[..i], pages).0, pages, listing[i])
  {
    assert listing == listing[..i] + listing[i..];
    RunSplit(files, listing[..i], listing[i..], pages);
  }

  /** A name that is not listed and that no rename targets keeps its presence and content. */
  lemma {:induction false} RunFrame(files: Files, listing: seq<string>, pages: Content -> Page, n: string)
    requires n !in listing
    requires forall i :: 0 <= i < |listing| ==> Run(files, listing, pages).1[i] != Renamed(n)
    ensures n in Run(files, listing, pages).0 <==> n in files
    ensures n in files ==> Run(files, listing, pages).0[n] == files[n]
    decreases listing
  {
    if listing != [] {
      var o := Decide(files, pages, listing[0]);
      var next := Apply(files, listing[0], o);
      var tail := Run(next, listing[1..], pages).1;
      assert Run(files, listing, pages).1 == [o] + tail;
      assert forall j :: 0 <= j < |tail| ==> tail[j] == Run(files, listing, pages).1[j + 1];
      assert Run(files, listing, pages).1[0] == o;
      assert n != listing[0] && o != Renamed(n);
      assert n in next <==> n in files;
      assert n in files ==> next[n] == files[n];
      assert n !in listing[1..];
      RunFrame(next, listing[1..], pages, n);
    }
  }

  /**
   * No file is lost or overwritten: the pass keeps the number of entries and
   * the set of contents they hold. Together these say no more than a multiset
   * statement would only because every change is a `Move` of one entry to a
   * free name; a replacing rename drops an entry and shrinks the count.
   */
  lemma {:induction false} RunConservesFiles(files: Files, listing: seq<string>, pages: Content -> Page)
    ensures |Run(files, listing, pages).0| == |files|
    ensures Run(files, listing, pages).0.Values == files.Values
    decreases listing
  {
    if listing != [] {
      var o := Decide(files, pages, listing[0]);
      RunConservesFiles(Apply(files, listing[0], o), listing[1..], pages);
    }
  }

  /** An unreadable PDF gives no payload and is left as it is. */
  lemma UnreadablePdfNotFound(files: Files, pages: Content -> Page, name: string)
    requires IsPdf(name) && name in files && pages(files[name]).Unreadable?
    ensures Decide(files, pages, name) == NotFound
    ensures Apply(files, name, Decide(files, pages, name)) == files
  {
  }

  // ---------------------------------------------------------------------------
  // Idempotence
  // ---------------------------------------------------------------------------

  /** A pass over a settled directory renames nothing, whatever it lists. */
  lemma {:induction false} SettledRunIsNoop(files: Files, listing: seq<string>, pages: Content -> Page)
    requires Settled(files, pages)
    ensures Run(files, listing, pages).0 == files
    ensures forall i :: 0 <= i < |listing| ==> Run(files, listing, pages).1[i] in {NotPdf, NotFound, AlreadyCorrect}
    decreases listing
  {
    if listing != [] {
      var name := listing[0];
      var o := Decide(files, pages, name);
      if name in files {
        assert InPlace(name, files[name], pages);
      }
      assert o in {NotPdf, NotFound, AlreadyCorrect};
      SettledRunIsNoop(files, listing[1..], pages);
      var tail := Run(files, listing[1..], pages).1;
      assert Run(files, listing, pages).1 == [Decide(files, pages, listing[0])] + tail;
    }
  }

  /** The invariant of a conflict-free pass: every entry that will not be visited again is in place. */
  lemma {:induction false} ConflictFreeRunSettles(files: Files, listing: seq<string>, pages: Content -> Page)
    requires forall n | n in files && n !in listing :: InPlace(n, files[n], pages)
    requires forall i :: 0 <= i < |listing| ==> !Run(files, listing, pages).1[i].Conflict?
    ensures Settled(Run(files, listing, pages).0, pages)
    decreases listing
  {
    if listing != [] {
      var name, rest := listing[0], listing[1..];
      var o := Decide(files, pages, name);
      var next := Apply(files, name, o);
      var tail := Run(next, rest, pages).1;
      assert Run(files, listing, pages).1 == [o] + tail;
      assert Run(files, listing, pages).1[0] == o;
      assert forall j :: 0 <= j < |tail| ==> tail[j] == Run(files, listing, pages).1[j + 1];
      forall n | n in next && n !in rest
        ensures InPlace(n, next[n], pages)
      {
        if o.Renamed? && n == o.target {
          assert next[n] == files[name];
        } else if n == name {
          assert !o.Conflict?;
          assert o.Renamed? ==> n !in next;
          assert o in {NotPdf, NotFound, AlreadyCorrect};
        } else {
          assert n in files && n !in listing && next[n] == files[n];
        }
      }
      ConflictFreeRunSettles(next, rest, pages);
    }
  }

  /**
   * A pass over every entry of the directory that meets no conflict leaves it
   * settled, so a second pass renames nothing.
   */
  lemma SecondRunChangesNothing(files: Files, listing: seq<string>, listing2: seq<string>, pages: Content -> Page)
    requires forall n | n in files :: n in listing
    requires forall i :: 0 <= i < |listing| ==> !Run(files, listing, pages).1[i].Conflict?
    ensures var after := Run(files, listing, pages).0;
      Run(after, listing2, pages).0 == after &&
      forall i :: 0 <= i < |listing2| ==> !Run(after, listing2, pages).1[i].Renamed?
  {
    ConflictFreeRunSettles(files, listing, pages);
    SettledRunIsNoop(Run(files, listing, pages).0, listing2, pages);
  }

  // ---------------------------------------------------------------------------
  // Examples
  // ---------------------------------------------------------------------------

  /** A page whose QR code the primary reader decodes to `payload`, with nothing detected. */
  function Showing(payload: string): Page {
    Rendered(None, (_: Crop) => Found([Some(payload)]), (_: Crop) => None)
  }

  lemma ShowingPayload(payload: string)
    ensures ExtractPayload(Showing(payload)) == Some(payload)
  {
  }

  /** Every file carries "INV-2024-001". */
  function AllInvoice(c: Content): Page {
    Showing("INV-2024-001")
  }

  /** The two decisions of the example below, each against the namespace of its turn. */
  lemma InvoiceDecisions()
    ensures Decide(map["a.pdf" := [1], "b.pdf" := [2]], AllInvoice, "a.pdf") == Renamed("INV-2024-001.pdf")
    ensures Decide(map["INV-2024-001.pdf" := [1], "b.pdf" := [2]], AllInvoice, "b.pdf") == Conflict("INV-2024-001.pdf")
  {
    IsPdfIff("a.pdf");
    IsPdfIff("b.pdf");
    ShowingPayload("INV-2024-001");
    assert Target("INV-2024-001") == "INV-2024-001.pdf";
  }

  /** A PDF carrying "INV-2024-001" is renamed to "INV-2024-001.pdf"; a later PDF carrying the same payload then meets the new name and is skipped. */
  lemma LaterEntrySeesEarlierRename()
    ensures Run(map["a.pdf" := [1], "b.pdf" := [2]], ["a.pdf", "b.pdf"], AllInvoice)
         == (map["INV-2024-001.pdf" := [1], "b.pdf" := [2]],
             [Renamed("INV-2024-001.pdf"), Conflict("INV-2024-001.pdf")])
  {
    var files: Files := map["a.pdf" := [1], "b.pdf" := [2]];
    var t := "INV-2024-001.pdf";
    InvoiceDecisions();
    var next := Move(files, "a.pdf", t);
    assert next == map[t := [1], "b.pdf" := [2]];
    assert ["a.pdf", "b.pdf"][1..] == ["b.pdf"];
    assert ["b.pdf"][1..] == [];
    assert Run(next, [], AllInvoice) == (next, []);
    assert Run(next, ["b.pdf"], AllInvoice) == (next, [Conflict(t)] + []);
    assert Run(files, ["a.pdf", "b.pdf"], AllInvoice) == (next, [Renamed(t)] + ([Conflict(t)] + []));
    assert [Renamed(t)] + ([Conflict(t)] + []) == [Renamed(t), Conflict(t)];
  }

  /** File [1] carries "X"; any other file cannot be read. */
  function OnlyFirstX(c: Content): Page {
    if c == [1] then Showing("X") else Unreadable
  }

  /** "A.pdf" carries "X" while "X.pdf" exists: the rename is skipped and neither file changes. */
  lemma CollisionExample()
    ensures Run(map["A.pdf" := [1], "X.pdf" := [2]], ["A.pdf"], OnlyFirstX)
         == (map["A.pdf" := [1], "X.pdf" := [2]], [Conflict("X.pdf")])
  {
    var files: Files := map["A.pdf" := [1], "X.pdf" := [2]];
    IsPdfIff("A.pdf");
    ShowingPayload("X");
    assert Target("X") == "X.pdf";
    assert PayloadOf(files, OnlyFirstX, "A.pdf") == Some("X");
    assert Decide(files, OnlyFirstX, "A.pdf") == Conflict("X.pdf");
    assert ["A.pdf"][1..] == [];
    assert Apply(files, "A.pdf", Conflict("X.pdf")) == files;
    assert Run(files, [], OnlyFirstX) == (files, []);
    assert Run(files, ["A.pdf"], OnlyFirstX) == (files, [Conflict("X.pdf")] + []);
    assert [Conflict("X.pdf")] + [] == [Conflict("X.pdf")];
  }

  /** File [1] carries "x" and every other file "y". */
  function XThenY(c: Content): Page {
    if c == [1] then Showing("x") else Showing("y")
  }

  /**
   * Without the conflict-free premise a second pass can rename: "a.pdf" first
   * meets "x.pdf", which the same pass then renames away, so the second pass
   * finds the name free.
   */
  lemma ConflictCanResolveOnSecondRun()
    ensures var first := Run(map["a.pdf" := [1], "x.pdf" := [2]], ["a.pdf", "x.pdf"], XThenY);
      first.1 == [Conflict("x.pdf"), Renamed("y.pdf")] &&
      first.0 == map["a.pdf" := [1], "y.pdf" := [2]] &&
      Run(first.0, ["a.pdf", "y.pdf"], XThenY).1[0] == Renamed("x.pdf")
  {
    var files: Files := map["a.pdf" := [1], "x.pdf" := [2]];
    var after: Files := map["a.pdf" := [1], "y.pdf" := [2]];
    XThenYDecisions();
    assert Move(files, "x.pdf", "y.pdf") == after;
    assert ["a.pdf", "x.pdf"][1..] == ["x.pdf"];
    assert ["x.pdf"][1..] == [];
    assert Run(after, [], XThenY) == (after, []);
    assert Run(files, ["x.pdf"], XThenY) == (after, [Renamed("y.pdf")] + []);
    assert Run(files, ["a.pdf", "x.pdf"], XThenY) == (after, [Conflict("x.pdf")] + ([Renamed("y.pdf")] + []));
    assert [Conflict("x.pdf")] + ([Renamed("y.pdf")] + []) == [Conflict("x.pdf"), Renamed("y.pdf")];
    assert Run(after, ["a.pdf", "y.pdf"], XThenY).1[0] == Decide(after, XThenY, "a.pdf");
  }

  /** The three decisions of the example above. */
  lemma XThenYDecisions()
    ensures Decide(map["a.pdf" := [1], "x.pdf" := [2]], XThenY, "a.pdf") == Conflict("x.pdf")
    ensures Decide(map["a.pdf" := [1], "x.pdf" := [2]], XThenY, "x.pdf") == Renamed("y.pdf")
    ensures Decide(map["a.pdf" := [1], "y.pdf" := [2]], XThenY, "a.pdf") == Renamed("x.pdf")
  {
    IsPdfIff("a.pdf");
    IsPdfIff("x.pdf");
    ShowingPayload("x");
    ShowingPayload("y");
    assert Target("x") == "x.pdf" && Target("y") == "y.pdf";
  }

  // ---------------------------------------------------------------------------
  // The directory, updated in place
  // ---------------------------------------------------------------------------

  class Directory {
    var files: Files

    constructor (initial: Files)
      ensures files == initial
    {
      files := initial;
    }

    /** Renaming an entry, refused with the directory unchanged when the source is missing or the target exists. */
    method Rename(src: string, dst: string) returns (ok: bool)
      modifies this
      ensures ok <==> src in old(files) && dst !in old(files)
      ensures files == if ok then Move(old(files), src, dst) else old(files)
    {
      ok := src in files && dst !in files;
      if ok {
        files := Move(files, src, dst);
      }
    }

    /** One entry of the pass. */
    method ProcessFile(name: string, pages: Content -> Page) returns (o: Outcome)
      requires PlainPayloads(pages)
      modifies this
      ensures o == Decide(old(files), pages, name)
      ensures files == Apply(old(files), name, o)
    {
      if !IsPdf(name) {
        return NotPdf;
      }
      var payload := PayloadOf(files, pages, name);
      if !Truthy(payload) {
        return NotFound;
      }
      var target := Target(payload.value);
      if target == name {
        return AlreadyCorrect;
      }
      var ok := Rename(name, target);
      o := if ok then Renamed(target) else Conflict(target);
    }

    /** The pass over a snapshot of the listing, in listing order. */
    method RenamePdfs(listing: seq<string>, pages: Content -> Page) returns (outcomes: seq<Outcome>)
      requires PlainPayloads(pages)
      modifies this
      ensures (files, outcomes) == Run(old(files), listing, pages)
    {
      ghost var goal := Run(files, listing, pages);
      outcomes := [];
      for i := 0 to |listing|
        invariant Run(files, listing[i..], pages).0 == goal.0
        invariant outcomes + Run(files, listing[i..], pages).1 == goal.1
      {
        RunFirst(files, listing[i..], pages);
        var o := ProcessFile(listing[i], pages);
        assert listing[i..][1..] == listing[i + 1..];
        outcomes := outcomes + [o];
      }
      assert listing[|listing|..] == [];
      assert Run(files, [], pages) == (files, []);
      assert outcomes + [] == outcomes;
    }
  }
}
