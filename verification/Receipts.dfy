/**
 The receipt store: one directory per project and cadence, one file per run
 (`existing_receipt` and `write_receipt` in collectors/build_receipt.py).
 */
module Receipts {
  import opened Results
  import opened Lexical

  /** A project and one of its cadences: a directory of the store. */
  type Pair = (string, string)

  type Files = map<string, Receipt>

  datatype Status = Ok | Failed | Timeout | Stopped | Skipped | Locked
  datatype Verdict = Green | Amber | Red
  datatype Receipt = Receipt(run: string, ended: nat, status: Status, verdict: Verdict)

  /** Work receipts of one pair, oldest first. */
  type History = seq<Receipt>

  type Corpus = map<Pair, History>

  function HistoryOf(corpus: Corpus, p: Pair): History {
    if p in corpus then corpus[p] else []
  }

  function Suffix(run: string): string {
    "-" + run + ".json"
  }

  function FileName(ended: nat, run: string): string {
    Compact(ended) + Suffix(run)
  }

  // The glob `*-<run>.json`.
  predicate GlobMatches(name: string, run: string) {
    |Suffix(run)| <= |name| && name[|name| - |Suffix(run)|..] == Suffix(run)
  }

  predicate HyphenFree(run: string) {
    '-' !in run
  }

  /** The last hyphen of the file name, its extension aside. */
  predicate LastHyphen(name: string, p: int) {
    0 <= p < |name| && name[p] == '-' && forall i :: p < i < |name| - 5 ==> name[i] != '-'
  }

  lemma SuffixStartsAtLastHyphen(name: string, run: string)
    requires GlobMatches(name, run) && HyphenFree(run)
    ensures LastHyphen(name, |name| - |Suffix(run)|) && |Suffix(run)| == |run| + 6
  {
    var p := |name| - |Suffix(run)|;
    assert name[p..] == Suffix(run);
    assert name[p] == name[p..][0];
    forall i | p < i < |name| - 5
      ensures name[i] != '-'
    {
      assert name[i] == name[p..][i - p] == run[i - p - 1];
      assert run[i - p - 1] in run;
    }
  }

  /** Run identifiers hold no hyphen, so the glob for one run finds that run's file and no other. */
  lemma GlobFindsOwnRun(ended: nat, owner: string, run: string)
    requires HyphenFree(owner) && HyphenFree(run)
    ensures GlobMatches(FileName(ended, owner), run) <==> owner == run
  {
    var name := FileName(ended, owner);
    assert GlobMatches(name, owner);
    if GlobMatches(name, run) {
      SuffixStartsAtLastHyphen(name, owner);
      SuffixStartsAtLastHyphen(name, run);
      assert Suffix(owner) == Suffix(run);
      assert owner == Suffix(owner)[1..|owner| + 1] && run == Suffix(run)[1..|run| + 1];
    }
  }

  /** A hyphen would let one run's file pass for another's. */
  lemma HyphenConfusesGlob(ended: nat)
    ensures GlobMatches(FileName(ended, "A-B"), "B")
  {
    var name := FileName(ended, "A-B");
    assert Suffix("A-B") == "-A-B.json" && Suffix("B") == "-B.json";
    assert name[|name| - 7..] == "-A-B.json"[2..];
  }

  ghost predicate Exists(files: Files, run: string) {
    exists n :: n in files && GlobMatches(n, run)
  }

  ghost function Written(files: Files, r: Receipt): Files {
    if Exists(files, r.run) then files else files[FileName(r.ended, r.run) := r]
  }

  function FilesOf(directories: map<Pair, Files>, d: Pair): Files {
    if d in directories then directories[d] else map[]
  }

  /** All directories after one write into `d`. */
  ghost function WrittenTo(directories: map<Pair, Files>, d: Pair, r: Receipt): map<Pair, Files> {
    if Exists(FilesOf(directories, d), r.run) then directories
    else directories[d := FilesOf(directories, d)[FileName(r.ended, r.run) := r]]
  }

  class ReceiptStore {
    var directories: map<Pair, Files>

    constructor ()
      ensures directories == map[]
    {
      directories := map[];
    }

    method ExistingReceipt(d: Pair, run: string) returns (name: Option<string>)
      ensures name.Some? <==> Exists(FilesOf(directories, d), run)
      ensures name.Some? ==> name.value in FilesOf(directories, d) && GlobMatches(name.value, run)
    {
      var names := FilesOf(directories, d).Keys;
      var rest := names;
      while rest != {}
        invariant rest <= names
        invariant forall n :: n in names - rest ==> !GlobMatches(n, run)
        decreases |rest|
      {
        var n :| n in rest;
        if GlobMatches(n, run) {
          return Some(n);
        }
        rest := rest - {n};
      }
      name := None;
    }

    method Write(d: Pair, r: Receipt)
      modifies this
      ensures directories == WrittenTo(old(directories), d, r)
    {
      var existing := ExistingReceipt(d, r.run);
      if existing.Some? {
        return;
      }
      directories := directories[d := FilesOf(directories, d)[FileName(r.ended, r.run) := r]];
    }
  }

  // ------------------------------------------------------------------- whole runs

  /** Files are named after what they hold, and no run has two. */
  ghost predicate OnePerRun(files: Files) {
    && (forall n :: n in files ==> HyphenFree(files[n].run) && n == FileName(files[n].ended, files[n].run))
    && (forall n, m :: n in files && m in files && files[n].run == files[m].run ==> n == m)
  }

  lemma ExistsMeansOwnFile(files: Files, run: string)
    requires OnePerRun(files) && HyphenFree(run)
    ensures Exists(files, run) <==> exists n :: n in files && files[n].run == run
  {
    forall n | n in files
      ensures GlobMatches(n, run) <==> files[n].run == run
    {
      GlobFindsOwnRun(files[n].ended, files[n].run, run);
    }
  }

  /** A file for a run that has none leaves one file to a run. */
  lemma AddedKeepsOnePerRun(files: Files, name: string, r: Receipt)
    requires OnePerRun(files) && HyphenFree(r.run) && name == FileName(r.ended, r.run)
    requires forall n :: n in files ==> files[n].run != r.run
    ensures OnePerRun(files[name := r]) && name !in files
  {
    GlobFindsOwnRun(r.ended, r.run, r.run);
    if name in files {
      GlobFindsOwnRun(files[name].ended, files[name].run, r.run);
    }
  }

  lemma WrittenIsAdded(files: Files, r: Receipt)
    requires OnePerRun(files) && HyphenFree(r.run)
    ensures if exists n :: n in files && files[n].run == r.run then Written(files, r) == files
            else Written(files, r) == files[FileName(r.ended, r.run) := r]
  {
    ExistsMeansOwnFile(files, r.run);
  }

  /** One write keeps every file there is, and afterwards its run has a file: its own or an earlier writer's. */
  lemma WriteKeepsOnePerRun(files: Files, r: Receipt)
    requires OnePerRun(files) && HyphenFree(r.run)
    ensures OnePerRun(Written(files, r)) && Exists(Written(files, r), r.run)
    ensures forall n :: n in files ==> n in Written(files, r) && Written(files, r)[n] == files[n]
  {
    ExistsMeansOwnFile(files, r.run);
    if !Exists(files, r.run) {
      AddedExists(files, FileName(r.ended, r.run), r);
    }
  }

  lemma AddedExists(files: Files, name: string, r: Receipt)
    requires OnePerRun(files) && HyphenFree(r.run) && name == FileName(r.ended, r.run)
    requires forall n :: n in files ==> files[n].run != r.run
    ensures OnePerRun(files[name := r]) && name !in files && Exists(files[name := r], r.run)
  {
    AddedKeepsOnePerRun(files, name, r);
    assert files[name := r][name].run == r.run;
    ExistsMeansOwnFile(files[name := r], r.run);
  }

  /** One directory after a sequence of writes, by whichever writers. */
  ghost function AfterWrites(writes: seq<Receipt>): Files {
    if writes == [] then map[] else Written(AfterWrites(writes[..|writes| - 1]), writes[|writes| - 1])
  }

  lemma {:induction false} RunsWithFiles(writes: seq<Receipt>, run: string)
    requires forall w :: w in writes ==> HyphenFree(w.run)
    ensures OnePerRun(AfterWrites(writes))
    ensures (exists n :: n in AfterWrites(writes) && AfterWrites(writes)[n].run == run)
         ==> exists w :: w in writes && w.run == run
  {
    if writes != [] {
      RunsWithFiles(writes[..|writes| - 1], run);
      WriteKeepsOnePerRun(AfterWrites(writes[..|writes| - 1]), writes[|writes| - 1]);
    }
  }

  /**
   Whichever writer comes first wins: no run ever has two files, and the receipt a run is first
   written with is the one its file holds from then on.
   */
  lemma {:induction false} FirstWriterWins(writes: seq<Receipt>, i: nat)
    requires forall w :: w in writes ==> HyphenFree(w.run)
    requires i < |writes| && forall j :: 0 <= j < i ==> writes[j].run != writes[i].run
    ensures OnePerRun(AfterWrites(writes))
    ensures HoldsReceipt(AfterWrites(writes), writes[i])
  {
    var init, last := writes[..|writes| - 1], writes[|writes| - 1];
    RunsWithFiles(writes, last.run);
    if i < |init| {
      FirstWriterWins(init, i);
      StillHolds(AfterWrites(init), last, writes[i]);
    } else {
      FirstOfRun(init, last);
    }
  }

  /** The file named after the receipt holds it. */
  predicate HoldsReceipt(files: Files, r: Receipt) {
    var name := FileName(r.ended, r.run);
    name in files && files[name] == r
  }

  lemma StillHolds(files: Files, w: Receipt, r: Receipt)
    requires OnePerRun(files) && HyphenFree(w.run) && HoldsReceipt(files, r)
    ensures HoldsReceipt(Written(files, w), r)
  {
    WriteKeepsOnePerRun(files, w);
  }

  lemma FirstOfRun(before: seq<Receipt>, r: Receipt)
    requires HyphenFree(r.run) && forall w :: w in before ==> HyphenFree(w.run) && w.run != r.run
    ensures HoldsReceipt(Written(AfterWrites(before), r), r)
  {
    RunsWithFiles(before, r.run);
    WrittenIsAdded(AfterWrites(before), r);
  }
}
