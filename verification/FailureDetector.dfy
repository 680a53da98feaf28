/** The installer failure detector: it searches a stream for markers while remembering
    only a bounded tail of it, and loses no occurrence. */
module FailureDetector {
  import opened Text

  const MARKERS: seq<string> := [
    "An error occurred. Press enter to start a shell",
    "install_fail.crash",
    "install_fail/add_info"

  ]
  const WINDOW: nat := 4096

  /** Some marker occurs in the text. */
  ghost predicate Reports(markers: seq<string>, text: string) {
    exists k :: 0 <= k < |markers| && Contains(text, markers[k])
  }

  /** The last w characters. */
  function Last(text: string, w: nat): string {
    if |text| > w then text[|text| - w..] else text
  }

  /** The first marker of the list that occurs in the text, or "". */
  function FirstMarker(markers: seq<string>, text: string): (m: string)
    ensures m != "" ==> m in markers && Contains(text, m)
    ensures "" !in markers && Reports(markers, text) ==> m != ""
  {
    if markers == [] then ""
    else if Contains(text, markers[0]) then markers[0]
    else FirstMarker(markers[1..], text)
  }

  datatype Detection = Detection(tail: string, marker: string)

  /** One write, for any window and any list of markers. */
  function Detect(w: nat, markers: seq<string>, d: Detection, p: string): Detection {
    if d.marker != "" then d
    else Detection(Last(d.tail + p, w), FirstMarker(markers, d.tail + p))
  }

  function DetectAll(w: nat, markers: seq<string>, chunks: seq<string>): Detection {
    if chunks == [] then Detection("", "")
    else Detect(w, markers, DetectAll(w, markers, chunks[..|chunks| - 1]), chunks[|chunks| - 1])
  }

  class InstallerFailureDetector {
    var tail: string
    var marker: string

    function State(): Detection
      reads this
    {
      Detection(tail, marker)
    }

    constructor ()
      ensures State() == Detection("", "")
    {
      tail := "";
      marker := "";
    }

    method Write(p: string) returns (n: nat)
      modifies this
      ensures State() == Detect(WINDOW, MARKERS, old(State()), p)
      ensures n == |p|
    {
      if marker == "" {
        var combined := tail + p;
        var i := 0;
        assert MARKERS[0..] == MARKERS;
        while i < |MARKERS|
          invariant 0 <= i <= |MARKERS|
          invariant marker == "" && tail == old(tail)
          invariant FirstMarker(MARKERS, combined) == FirstMarker(MARKERS[i..], combined)
        {
          if Contains(combined, MARKERS[i]) {
            marker := MARKERS[i];
            break;
          }
          i := i + 1;
        }
        if |combined| > WINDOW {
          combined := combined[|combined| - WINDOW..];
        }
        tail := combined;
      }
      return |p|;
    }

    /** None is a nil error. */
    method Err() returns (failure: Option<string>)
      ensures failure == if marker == "" then None else Some(marker)
    {
      if marker == "" {
        return None;
      }
      return Some(marker);
    }
  }

  // ---------------------------------------------------------------- exactness

  /** A marker that is new with this write lies within the remembered tail and the write. */
  lemma TailSuffices(w: nat, seen: string, p: string, m: string)
    requires |m| <= w + 1 && !Contains(seen, m)
    ensures Contains(seen + p, m) <==> Contains(Last(seen, w) + p, m)
  {
    var whole := seen + p;
    var from := if |seen| > w then |seen| - w else 0;
    assert whole[from..|whole|] == whole[from..] == Last(seen, w) + p;
    assert whole[0..|seen|] == seen;
    if Contains(whole, m) {
      var at: nat :| at <= |whole| && OccursAt(whole, m, at);
      if at < from {
        OccursInPart(whole, 0, |seen|, m, at);
      } else {
        OccursInPart(whole, from, |whole|, m, at);
      }
    }
    if Contains(whole[from..], m) {
      ContainsInPart(whole, from, |whole|, m);
    }
  }

  lemma LastOfLast(w: nat, seen: string, p: string)
    ensures Last(Last(seen, w) + p, w) == Last(seen + p, w)
  {
    assert Last(Last(seen, w) + p, w) == Last(seen + p, w);
  }

  /** Whatever the writes, a marker is reported exactly when the whole stream contains one,
      although only w characters are remembered. */
  lemma {:induction false} DetectionIsExact(w: nat, markers: seq<string>, chunks: seq<string>)
    requires forall m <- markers :: 0 < |m| <= w + 1
    ensures DetectAll(w, markers, chunks).marker != "" <==> Reports(markers, ConcatAll(chunks))
    ensures var d := DetectAll(w, markers, chunks);
            if d.marker == "" then d.tail == Last(ConcatAll(chunks), w)
            else d.marker in markers && Contains(ConcatAll(chunks), d.marker)
  {
    if chunks == [] {
      forall k | 0 <= k < |markers|
        ensures !Contains("", markers[k])
      {
        assert markers[k] in markers;
      }
    } else {
      var last := |chunks| - 1;
      var seen, p := ConcatAll(chunks[..last]), chunks[last];
      var d := DetectAll(w, markers, chunks[..last]);
      DetectionIsExact(w, markers, chunks[..last]);
      if d.marker != "" {
        assert (seen + p)[0..|seen|] == seen;
        ContainsInPart(seen + p, 0, |seen|, d.marker);
      } else {
        forall k | 0 <= k < |markers|
          ensures Contains(seen + p, markers[k]) <==> Contains(d.tail + p, markers[k])
        {
          assert markers[k] in markers;
          TailSuffices(w, seen, p, markers[k]);
        }
        LastOfLast(w, seen, p);
      }
    }
  }

  /** The installer's own markers fit its own window. */
  lemma InstallerDetectionIsExact(chunks: seq<string>)
    ensures var marker := DetectAll(WINDOW, MARKERS, chunks).marker;
            && (marker != "" <==> Reports(MARKERS, ConcatAll(chunks)))
            && (marker != "" ==> marker in MARKERS && Contains(ConcatAll(chunks), marker))
  {
    assert |MARKERS[0]| == 47 && |MARKERS[1]| == 18 && |MARKERS[2]| == 21;
    forall m <- MARKERS
      ensures 0 < |m| <= WINDOW + 1
    {
      var k :| 0 <= k < |MARKERS| && MARKERS[k] == m;
    }
    DetectionIsExact(WINDOW, MARKERS, chunks);
  }

  /** A QEMU run: its output reaches the detector in pieces; then the error of the process comes
      first, those of the two flushes next, and the detector's last. None is success. */
  method RunVerdict(output: seq<string>, processError: Option<string>, stdoutError: Option<string>,
                    stderrError: Option<string>)
    returns (err: Option<string>)
    ensures err.None? <==>
              && processError.None? && stdoutError.None? && stderrError.None?
              && !Reports(MARKERS, ConcatAll(output))
    ensures processError.Some? ==> err == processError
    ensures processError.None? && stdoutError.Some? ==> err == stdoutError
    ensures processError.None? && stdoutError.None? && stderrError.Some? ==> err == stderrError
    ensures processError.None? && stdoutError.None? && stderrError.None? && err.Some? ==>
              err.value in MARKERS && Contains(ConcatAll(output), err.value)
  {
    var detector := new InstallerFailureDetector();
    assert output[..0] == [];
    for i := 0 to |output|
      invariant detector.State() == DetectAll(WINDOW, MARKERS, output[..i])
    {
      var _ := detector.Write(output[i]);
      assert output[..i + 1][..i] == output[..i];
    }
    assert output[..|output|] == output;
    InstallerDetectionIsExact(output);
    err := processError;
    if stdoutError.Some? && err.None? {
      err := stdoutError;
    }
    if stderrError.Some? && err.None? {
      err := stderrError;
    }
    var failure := detector.Err();
    if failure.Some? && err.None? {
      err := failure;
    }
  }

  /** The bound is sharp: a window two characters shorter than a marker misses that marker
      when the marker arrives in two writes. */
  lemma ShorterWindowMisses(w: nat, m: string)
    requires |m| > w + 1
    ensures var chunks := [m[..|m| - 1], m[|m| - 1..]];
            Contains(ConcatAll(chunks), m) && DetectAll(w, [m], chunks).marker == ""
  {
    var a, b := m[..|m| - 1], m[|m| - 1..];
    var chunks := [a, b];
    assert chunks[..1] == [a] && [a][..0] == [];
    assert ConcatAll([a]) == a;
    assert ConcatAll(chunks) == m == a + b;
    assert OccursAt(m, m, 0);
    assert [m][1..] == [];
    assert DetectAll(w, [m], [a]) == Detection(Last(a, w), "");
  }

  /** The detector never remembers more than 4096 characters. */
  lemma {:induction false} BoundedMemory(chunks: seq<string>)
    ensures |DetectAll(WINDOW, MARKERS, chunks).tail| <= 4096
  {
    if chunks != [] {
      BoundedMemory(chunks[..|chunks| - 1]);
    }
  }
}
