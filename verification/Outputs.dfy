/**
 Which files of `/workspace/outputs` one execution hands over: the loop of
 `artifacts_since` against a selection that never mentions the loop's counters.
 */
module Outputs {
  import opened Wrappers

  // A file in path order. `plain` is false for directories, links and files
  // with a second hard link.
  datatype Output = Output(name: string, extension: string, size: nat, modified: int, plain: bool)
  {
    predicate Png() { extension == ".png" }
  }

  datatype Reason = TypeNotAllowed | PngTooLarge | TooManyPlots | FileTooLarge | TooManyFiles

  datatype Dropped = Dropped(name: string, reason: Reason)

  datatype Scan = Scan(accepted: seq<string>, dropped: seq<Dropped>, omitted: nat)

  // The collected extensions and the time the execution started.
  datatype Rules = Rules(collected: set<string>, threshold: int)

  const MAX_PLOTS := 4
  const MAX_FILES := 8
  const MAX_PNG_BYTES := 5 * 1024 * 1024
  const MAX_FILE_BYTES := 10 * 1024 * 1024

  function Min(a: int, b: int): int {
    if a <= b then a else b
  }

  // ---- The selection ----

  predicate Fresh(r: Rules, o: Output) {
    o.plain && o.modified >= r.threshold
  }

  // The file itself breaks no rule.
  predicate Fits(r: Rules, o: Output) {
    Fresh(r, o) && o.extension in r.collected && o.size <= if o.Png() then MAX_PNG_BYTES else MAX_FILE_BYTES
  }

  function CountFresh(r: Rules, files: seq<Output>): nat {
    if files == [] then 0
    else CountFresh(r, files[..|files| - 1]) + (if Fresh(r, files[|files| - 1]) then 1 else 0)
  }

  function CountPlots(r: Rules, files: seq<Output>): nat {
    if files == [] then 0
    else CountPlots(r, files[..|files| - 1]) + (if Fits(r, files[|files| - 1]) && files[|files| - 1].Png() then 1 else 0)
  }

  function CountOthers(r: Rules, files: seq<Output>): nat {
    if files == [] then 0
    else CountOthers(r, files[..|files| - 1]) + (if Fits(r, files[|files| - 1]) && !files[|files| - 1].Png() then 1 else 0)
  }

  // Whether `o` is handed over when `earlier` precedes it: only the fitting
  // files before it matter, and of the plots among them at most four.
  predicate Chosen(r: Rules, earlier: seq<Output>, o: Output) {
    && Fits(r, o)
    && Min(MAX_PLOTS, CountPlots(r, earlier)) + CountOthers(r, earlier) < MAX_FILES
    && (o.Png() ==> CountPlots(r, earlier) < MAX_PLOTS)
  }

  function Accepted(r: Rules, files: seq<Output>): seq<Output> {
    if files == [] then []
    else
      var earlier, o := files[..|files| - 1], files[|files| - 1];
      if Chosen(r, earlier, o) then Accepted(r, earlier) + [o] else Accepted(r, earlier)
  }

  function Refused(r: Rules, files: seq<Output>): seq<Output> {
    if files == [] then []
    else
      var earlier, o := files[..|files| - 1], files[|files| - 1];
      if Fresh(r, o) && !Chosen(r, earlier, o) then Refused(r, earlier) + [o] else Refused(r, earlier)
  }

  function Plots(files: seq<Output>): nat {
    if files == [] then 0 else Plots(files[..|files| - 1]) + (if files[|files| - 1].Png() then 1 else 0)
  }

  // ---- What the selection guarantees ----

  /** The selection takes all that fits, up to four plots and eight files. */
  lemma {:induction false} AcceptedSize(r: Rules, files: seq<Output>)
    ensures |Accepted(r, files)| == Min(MAX_FILES, Min(MAX_PLOTS, CountPlots(r, files)) + CountOthers(r, files))
    ensures Plots(Accepted(r, files)) <= Min(MAX_PLOTS, CountPlots(r, files))
    ensures |Accepted(r, files)| < MAX_FILES ==> Plots(Accepted(r, files)) == Min(MAX_PLOTS, CountPlots(r, files))
  {
    if files != [] {
      var earlier, o := files[..|files| - 1], files[|files| - 1];
      AcceptedSize(r, earlier);
      assert (Accepted(r, earlier) + [o])[..|Accepted(r, earlier)|] == Accepted(r, earlier);
    }
  }

  lemma {:induction false} SizesAddUp(r: Rules, files: seq<Output>)
    ensures |Accepted(r, files)| + |Refused(r, files)| == CountFresh(r, files)
  {
    if files != [] {
      SizesAddUp(r, files[..|files| - 1]);
    }
  }

  /** Every fresh file is accepted or refused, as often as it occurs, and nothing else is. */
  lemma {:induction false} EachFileOnce(r: Rules, files: seq<Output>, o: Output)
    ensures multiset(Accepted(r, files))[o] + multiset(Refused(r, files))[o] == if Fresh(r, o) then multiset(files)[o] else 0
  {
    if files != [] {
      var earlier, last := files[..|files| - 1], files[|files| - 1];
      EachFileOnce(r, earlier, o);
      assert files == earlier + [last];
    }
  }

  /**
   A fitting file is refused exactly when what is handed over before it is
   already eight files, or it is a plot and four plots are.
   */
  lemma RefusedOnlyWhenFull(r: Rules, earlier: seq<Output>, o: Output)
    requires Fits(r, o)
    ensures Chosen(r, earlier, o) <==>
      |Accepted(r, earlier)| < MAX_FILES && (o.Png() ==> Plots(Accepted(r, earlier)) < MAX_PLOTS)
  {
    AcceptedSize(r, earlier);
  }

  // ---- The same by position ----

  // A fresh file of a collected type, not too large for its type.
  predicate Suits(r: Rules, o: Output) {
    && o.plain && o.modified >= r.threshold && o.extension in r.collected
    && o.size <= if o.extension == ".png" then 5_242_880 else 10_485_760
  }

  function PlotsBefore(r: Rules, files: seq<Output>, n: nat): set<nat>
    requires n <= |files|
  {
    set k | 0 <= k < n && Suits(r, files[k]) && files[k].extension == ".png"
  }

  function OthersBefore(r: Rules, files: seq<Output>, n: nat): set<nat>
    requires n <= |files|
  {
    set k | 0 <= k < n && Suits(r, files[k]) && files[k].extension != ".png"
  }

  lemma SuitsIs(r: Rules, o: Output)
    ensures Suits(r, o) <==> Fits(r, o)
  {
  }

  lemma BeforeNext(r: Rules, files: seq<Output>, n: nat)
    requires n < |files|
    ensures PlotsBefore(r, files, n + 1) == PlotsBefore(r, files, n) + if Suits(r, files[n]) && files[n].extension == ".png" then {n} else {}
    ensures OthersBefore(r, files, n + 1) == OthersBefore(r, files, n) + if Suits(r, files[n]) && files[n].extension != ".png" then {n} else {}
    ensures n !in PlotsBefore(r, files, n) && n !in OthersBefore(r, files, n)
  {
  }

  lemma {:induction false} CountsBefore(r: Rules, files: seq<Output>, n: nat)
    requires n <= |files|
    ensures CountPlots(r, files[..n]) == |PlotsBefore(r, files, n)| && CountOthers(r, files[..n]) == |OthersBefore(r, files, n)|
  {
    if n > 0 {
      CountsBefore(r, files, n - 1);
      assert files[..n][..n - 1] == files[..n - 1];
      SuitsIs(r, files[n - 1]);
      BeforeNext(r, files, n - 1);
    }
  }

  // Fewer than eight files, counting at most four plots, and for a plot fewer than four plots, suit before it.
  predicate HandedOver(r: Rules, files: seq<Output>, k: nat) {
    && k < |files| && Suits(r, files[k])
    && (if |PlotsBefore(r, files, k)| < 4 then |PlotsBefore(r, files, k)| else 4) + |OthersBefore(r, files, k)| < 8
    && (files[k].extension == ".png" ==> |PlotsBefore(r, files, k)| < 4)
  }

  // `at` are the positions before `n` that are handed over, in order, and `chosen` their files.
  ghost predicate Picked(r: Rules, files: seq<Output>, n: nat, at: seq<nat>, chosen: seq<Output>) {
    && |at| == |chosen| && (forall k: nat :: k in at <==> k < n && HandedOver(r, files, k))
    && (forall i, j | 0 <= i < j < |at| :: at[i] < at[j])
    && forall i | 0 <= i < |at| :: at[i] < |files| && chosen[i] == files[at[i]]
  }

  lemma ChosenIs(r: Rules, files: seq<Output>, k: nat)
    requires k < |files|
    ensures Chosen(r, files[..k], files[k]) <==> HandedOver(r, files, k)
  {
    CountsBefore(r, files, k);
    SuitsIs(r, files[k]);
  }

  lemma PickNext(r: Rules, files: seq<Output>, n: nat, at: seq<nat>, chosen: seq<Output>)
    requires n < |files| && Picked(r, files, n, at, chosen)
    ensures if HandedOver(r, files, n) then Picked(r, files, n + 1, at + [n], chosen + [files[n]]) else Picked(r, files, n + 1, at, chosen)
  {
    forall i | 0 <= i < |at|
      ensures at[i] < n
    {
      assert at[i] in at;
    }
    assert forall k: nat :: k in at + [n] <==> k in at || k == n;
  }

  lemma {:induction false} PickedUpTo(r: Rules, files: seq<Output>, n: nat) returns (at: seq<nat>)
    requires n <= |files|
    ensures Picked(r, files, n, at, Accepted(r, files[..n]))
  {
    if n == 0 {
      at := [];
    } else {
      at := PickedUpTo(r, files, n - 1);
      assert files[..n][..n - 1] == files[..n - 1];
      ChosenIs(r, files, n - 1);
      PickNext(r, files, n - 1, at, Accepted(r, files[..n - 1]));
      if HandedOver(r, files, n - 1) {
        at := at + [n - 1];
      }
    }
  }

  /** Handed over are exactly the files that suit and still find room among those that suit before them, in their order. */
  lemma AcceptedByPosition(r: Rules, files: seq<Output>) returns (at: seq<nat>)
    ensures Picked(r, files, |files|, at, Accepted(r, files))
  {
    at := PickedUpTo(r, files, |files|);
    assert files[..|files|] == files;
  }

  // ---- The loop ----

  // The reason recorded for a refused file: its own fault first.
  function ReasonFor(r: Rules, earlier: seq<Output>, o: Output): Reason {
    if o.extension !in r.collected then TypeNotAllowed
    else if o.Png() && o.size > MAX_PNG_BYTES then PngTooLarge
    else if o.Png() && Plots(Accepted(r, earlier)) == MAX_PLOTS then TooManyPlots
    else if !o.Png() && o.size > MAX_FILE_BYTES then FileTooLarge
    else TooManyFiles
  }

  /** The reason recorded for a refused file is true of it, and a file is said to find no room only if it suits. */
  lemma ReasonIsTrue(r: Rules, earlier: seq<Output>, o: Output)
    requires o.plain && o.modified >= r.threshold && !Chosen(r, earlier, o)
    ensures match ReasonFor(r, earlier, o)
      case TypeNotAllowed => o.extension !in r.collected
      case PngTooLarge => o.extension in r.collected && o.extension == ".png" && o.size > 5_242_880
      case FileTooLarge => o.extension in r.collected && o.extension != ".png" && o.size > 10_485_760
      case TooManyPlots => Suits(r, o) && o.extension == ".png" && Plots(Accepted(r, earlier)) == 4
      case TooManyFiles => Suits(r, o) && |Accepted(r, earlier)| == 8
  {
    AcceptedSize(r, earlier);
    SuitsIs(r, o);
  }

  function Drops(r: Rules, files: seq<Output>): seq<Dropped> {
    if files == [] then []
    else
      var earlier, o := files[..|files| - 1], files[|files| - 1];
      if Fresh(r, o) && !Chosen(r, earlier, o) then Drops(r, earlier) + [Dropped(o.name, ReasonFor(r, earlier, o))]
      else Drops(r, earlier)
  }

  lemma {:induction false} DropsAreTheRefused(r: Rules, files: seq<Output>)
    ensures |Drops(r, files)| == |Refused(r, files)|
    ensures forall i | 0 <= i < |Drops(r, files)| :: Drops(r, files)[i].name == Refused(r, files)[i].name
  {
    if files != [] {
      DropsAreTheRefused(r, files[..|files| - 1]);
    }
  }

  function Names(files: seq<Output>): seq<string> {
    seq(|files|, i requires 0 <= i < |files| => files[i].name)
  }

  // The loop's variables after `files`.
  ghost predicate Scanned(r: Rules, files: seq<Output>, names: seq<string>, dropped: seq<Dropped>, omitted: nat, images: nat) {
    && names == Names(Accepted(r, files))
    && images == Plots(Accepted(r, files))
    && |dropped| + omitted == |Drops(r, files)|
    && |dropped| == Min(MAX_FILES, |Drops(r, files)|)
    && dropped <= Drops(r, files)
  }

  method Reject(dropped: seq<Dropped>, omitted: nat, name: string, reason: Reason) returns (dropped': seq<Dropped>, omitted': nat)
    ensures |dropped'| + omitted' == |dropped| + omitted + 1
    ensures if |dropped| < MAX_FILES then dropped' == dropped + [Dropped(name, reason)] else dropped' == dropped
  {
    dropped', omitted' := dropped, omitted;
    if |dropped| < MAX_FILES {
      dropped' := dropped + [Dropped(name, reason)];
    } else {
      omitted' := omitted + 1;
    }
  }

  lemma SkippedFile(r: Rules, earlier: seq<Output>, o: Output)
    requires !Fresh(r, o)
    ensures Accepted(r, earlier + [o]) == Accepted(r, earlier) && Drops(r, earlier + [o]) == Drops(r, earlier)
  {
    assert (earlier + [o])[..|earlier|] == earlier;
  }

  lemma RefusedFile(r: Rules, earlier: seq<Output>, o: Output)
    requires Fresh(r, o) && !Chosen(r, earlier, o)
    ensures Accepted(r, earlier + [o]) == Accepted(r, earlier)
    ensures Drops(r, earlier + [o]) == Drops(r, earlier) + [Dropped(o.name, ReasonFor(r, earlier, o))]
  {
    assert (earlier + [o])[..|earlier|] == earlier;
  }

  lemma AcceptedFile(r: Rules, earlier: seq<Output>, o: Output)
    requires Chosen(r, earlier, o)
    ensures Names(Accepted(r, earlier + [o])) == Names(Accepted(r, earlier)) + [o.name]
    ensures Plots(Accepted(r, earlier + [o])) == Plots(Accepted(r, earlier)) + (if o.Png() then 1 else 0)
    ensures Drops(r, earlier + [o]) == Drops(r, earlier)
  {
    assert (earlier + [o])[..|earlier|] == earlier;
    var accepted := Accepted(r, earlier);
    assert (accepted + [o])[..|accepted|] == accepted;
  }

  /** What one file does to the loop's variables. */
  method ScanFile(r: Rules, ghost earlier: seq<Output>, o: Output, names: seq<string>, dropped: seq<Dropped>, omitted: nat, images: nat)
    returns (names': seq<string>, dropped': seq<Dropped>, omitted': nat, images': nat)
    requires Scanned(r, earlier, names, dropped, omitted, images)
    ensures Scanned(r, earlier + [o], names', dropped', omitted', images')
  {
    names', dropped', omitted', images' := names, dropped, omitted, images;
    AcceptedSize(r, earlier);
    if !o.plain || o.modified < r.threshold {
      SkippedFile(r, earlier, o);
      return;
    }
    var reason: Option<Reason> := None;
    if o.extension !in r.collected {
      reason := Some(TypeNotAllowed);
    } else if o.Png() && o.size > MAX_PNG_BYTES {
      reason := Some(PngTooLarge);
    } else if o.Png() && images >= MAX_PLOTS {
      reason := Some(TooManyPlots);
    } else if !o.Png() && o.size > MAX_FILE_BYTES {
      reason := Some(FileTooLarge);
    } else if |names| >= MAX_FILES {
      reason := Some(TooManyFiles);
    }
    if Fits(r, o) {
      RefusedOnlyWhenFull(r, earlier, o);
    }
    if reason.Some? {
      RefusedFile(r, earlier, o);
      dropped', omitted' := Reject(dropped, omitted, o.name, reason.value);
      return;
    }
    AcceptedFile(r, earlier, o);
    names' := names + [o.name];
    if o.Png() {
      images' := images + 1;
    }
  }

  /** `artifacts_since` over the files below the outputs directory, in path order. */
  method ArtifactsSince(r: Rules, files: seq<Output>) returns (scan: Scan)
    ensures scan.accepted == Names(Accepted(r, files))
    ensures |scan.dropped| == Min(MAX_FILES, |Refused(r, files)|) && scan.dropped <= Drops(r, files)
    ensures |scan.accepted| + |scan.dropped| + scan.omitted == CountFresh(r, files)
    ensures |scan.accepted| <= MAX_FILES && Plots(Accepted(r, files)) <= MAX_PLOTS
  {
    var names, dropped, omitted: nat, images: nat := [], [], 0, 0;
    for i := 0 to |files|
      invariant Scanned(r, files[..i], names, dropped, omitted, images)
    {
      names, dropped, omitted, images := ScanFile(r, files[..i], files[i], names, dropped, omitted, images);
      assert files[..i + 1] == files[..i] + [files[i]];
    }
    assert files[..|files|] == files;
    AcceptedSize(r, files);
    SizesAddUp(r, files);
    DropsAreTheRefused(r, files);
    scan := Scan(names, dropped, omitted);
  }
}
