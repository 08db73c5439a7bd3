/** Strings the engine derives from a session: the ordinal of a drawn number
    (`getOrdinalSuffix`, script.js:624-631) and the exported results document
    with its `progress` field (`exportResults`, script.js:402-415). */
module Report {
  import opened Js
  import opened Sessions

  // ---------------------------------------------------------------------------
  // Ordinal suffix
  // ---------------------------------------------------------------------------

  /** The English rule: 11, 12 and 13 (and 111, 112, ...) take "th"; otherwise a
      last digit of 1, 2 or 3 takes "st", "nd" or "rd"; everything else "th". */
  function EnglishSuffix(n: nat): string {
    if n % 100 == 11 || n % 100 == 12 || n % 100 == 13 then "th"
    else if n % 10 == 1 then "st"
    else if n % 10 == 2 then "nd"
    else if n % 10 == 3 then "rd"
    else "th"
  }

  /** `getOrdinalSuffix(num)`: the number followed by its English ordinal suffix. */
  function OrdinalSuffix(num: nat): (r: string)
    ensures r == NatToString(num) + EnglishSuffix(num)
    ensures |r| == |NatToString(num)| + 2 && DigitsValue(r[..|r| - 2]) == num
  {
    NatToStringRoundTrip(num);
    var j := num % 10;
    var k := num % 100;
    var r :=
      if j == 1 && k != 11 then NatToString(num) + "st"
      else if j == 2 && k != 12 then NatToString(num) + "nd"
      else if j == 3 && k != 13 then NatToString(num) + "rd"
      else NatToString(num) + "th";
    assert r[..|r| - 2] == NatToString(num);
    r
  }

  // ---------------------------------------------------------------------------
  // Progress and export
  // ---------------------------------------------------------------------------

  /** `${drawnNumbers.length}/${groupSize}`: the string reads back as both counts. */
  function Progress(drawn: nat, total: int): (p: string)
    ensures ParseProgress(p) == Some((drawn, total))
  {
    var left := NatToString(drawn);
    assert '/' !in left by {
      assert forall i :: 0 <= i < |left| ==> IsDigit(left[i]);
    }
    SplitAtSlash(left, IntToString(total));
    assert IntToString(drawn) == left;
    left + "/" + IntToString(total)
  }

  /** Reads a progress string back: two decimal integers around the first "/". */
  function ParseProgress(p: string): Option<(int, int)> {
    match IndexOf(p, "/")
    case None => None
    case Some(i) =>
      match (ParseDecimal(p[..i]), ParseDecimal(p[i + 1..]))
      case (Some(d), Some(t)) => Some((d, t))
      case _ => None
  }

  /** Splitting `left + "/" + right` at its first "/" gives back both parts
      when `left` holds no "/". */
  lemma SplitAtSlash(left: string, right: string)
    requires '/' !in left
    ensures var p := left + "/" + right;
      IndexOf(p, "/") == Some(|left|) && p[..|left|] == left && p[|left| + 1..] == right
  {
    var p := left + "/" + right;
    assert p == left + ("/" + right);
    IndexOfPastPrefix(left, "/" + right, '/');
  }

  datatype ExportedDraw = ExportedDraw(number: int, timestamp: int)

  /** The document `exportResults` writes; draws keep their number and
      timestamp but not their fingerprint. */
  datatype ExportData = ExportData(
    groupName: string,
    groupSize: int,
    groupDescription: string,
    sessionId: string,
    createdAt: Timestamp,
    drawnNumbers: seq<ExportedDraw>,
    availableNumbers: seq<int>,
    progress: string)

  /** The document for a session: its metadata and pool as they are, each
      draw's number and timestamp in draw order, and a progress field that
      reads back as the draw count and the group size. */
  function Export(s: SessionData): (r: ExportData)
    ensures r.groupName == s.groupName && r.groupSize == s.groupSize && r.groupDescription == s.groupDescription
    ensures r.sessionId == s.id && r.createdAt == s.createdAt && r.availableNumbers == s.availableNumbers
    ensures |r.drawnNumbers| == |s.drawnNumbers|
    ensures forall i :: 0 <= i < |r.drawnNumbers| ==>
      r.drawnNumbers[i] == ExportedDraw(s.drawnNumbers[i].number, s.drawnNumbers[i].timestamp)
    ensures ParseProgress(r.progress) == Some((|s.drawnNumbers|, s.groupSize))
  {
    ExportData(
      s.groupName, s.groupSize, s.groupDescription, s.id, s.createdAt,
      seq(|s.drawnNumbers|, i requires 0 <= i < |s.drawnNumbers| =>
        ExportedDraw(s.drawnNumbers[i].number, s.drawnNumbers[i].timestamp)),
      s.availableNumbers,
      Progress(|s.drawnNumbers|, s.groupSize))
  }

  /** For a valid session the exported progress reads back as the draw count
      and the group size, and it shows "n/n" exactly when no number is left. */
  lemma ExportProgressShowsCompletion(s: SessionData)
    requires Valid(s)
    ensures ParseProgress(Export(s).progress) == Some((|s.drawnNumbers|, s.groupSize))
    ensures Export(s).progress == Progress(s.groupSize, s.groupSize) <==> s.availableNumbers == []
  {
    DrawnCountBounded(s);
    assert ParseProgress(Progress(s.groupSize, s.groupSize)) == Some((s.groupSize, s.groupSize));
  }
}
