/** The text-extraction primitives of the heat-pump web client: find a key marker
    inside a window, then a value intro after it, then a value ending after that,
    and return the text in between together with the position just past the ending.
    "Not found" is signalled by returning the start position unchanged. */
module Extraction {
  import opened TextSearch

  /** Size of the window each field search may look ahead. */
  const ReadAheadBlock: int := 4092
  const KeyIntro := "<tr><td>"
  const KeyEnding := "</td><td>"
  const DescrIntro := "</td><td>"
  const ValueIntro := "</td><td>"
  const ValueEnding := "</td><td>"

  /** The result of one extraction: the value text (or a diagnostic placeholder on a
      miss) and the position after the value ending (the start position on a miss). */
  datatype Extracted = Extracted(value: string, after: int)

  /** The key, the first intro after it and the first ending after that intro are found
      at `kp`, `ip` and `ep`, all inside the window `txt[lo:hi]`. */
  ghost predicate Located(txt: string, lo: int, hi: int, key: string, intro: string, ending: string,
                          kp: int, ip: int, ep: int)
  {
    && FirstAt(txt, key, lo, hi, kp)
    && FirstAt(txt, intro, kp + |key|, hi, ip)
    && FirstAt(txt, ending, ip + |intro|, hi, ep)
  }

  /** Bounded three-step extraction of the value that follows `key` in `txt[startPos:endPos]`. */
  function ExtractRaw(txt: string, startPos: int, endPos: int,
                      key: string, intro: string, ending: string): (r: Extracted)
    ensures startPos <= r.after
    ensures r.after != startPos ==>
              SliceStart(startPos, |txt|) + |key| + |intro| + |r.value| + |ending| <= r.after
    ensures r.after != startPos ==> r.after <= SliceEnd(endPos, |txt|)
  {
    var startP := Find(txt, key, startPos, endPos);
    if startP == -1 then Extracted("SearchStrKey <" + key + "> not found", startPos)
    else
      var afterKey := startP + |key|;
      var startPosVal := Find(txt, intro, afterKey, endPos);
      if startPosVal == -1 then Extracted("Value intro not found", startPos)
      else
        var valueStart := startPosVal + |intro|;
        var endPosVal := Find(txt, ending, valueStart, endPos);
        if endPosVal == -1 then Extracted("Value ending not found", startPos)
        else Extracted(txt[valueStart..endPosVal], endPosVal + |ending|)
  }

  /** When the key, intro and ending are present in order, the result is exactly the
      text between the end of the intro and the start of the ending, and the position
      returned is the one just past the ending. */
  lemma ExtractRawHit(txt: string, lo: int, hi: int, key: string, intro: string, ending: string,
                      kp: int, ip: int, ep: int)
    requires Located(txt, lo, hi, key, intro, ending, kp, ip, ep)
    ensures 0 <= ip + |intro| <= ep <= |txt|
    ensures ExtractRaw(txt, lo, hi, key, intro, ending).value == txt[ip + |intro|..ep]
    ensures ExtractRaw(txt, lo, hi, key, intro, ending).after == ep + |ending|
    ensures |ending| > 0 ==> ExtractRaw(txt, lo, hi, key, intro, ending).after > lo
  {
    FindIsFirst(txt, key, lo, hi, kp);
    FindIsFirst(txt, intro, kp + |key|, hi, ip);
    FindIsFirst(txt, ending, ip + |intro|, hi, ep);
    assert 0 <= kp && 0 <= ip && 0 <= ep;
    assert Find(txt, intro, Find(txt, key, lo, hi) + |key|, hi) == ip;
    assert Find(txt, ending, Find(txt, intro, Find(txt, key, lo, hi) + |key|, hi) + |intro|, hi) == ep;
    assert ExtractRaw(txt, lo, hi, key, intro, ending) == Extracted(txt[ip + |intro|..ep], ep + |ending|);
  }

  /** A key at `kp`, an intro at `ip` and an ending at `ep`, in that order inside the
      window, are the ones the extraction finds when the key does not occur earlier in
      the window, no intro starts between the key and `ip`, and no ending starts between
      the intro and `ep`. */
  lemma RowLocated(txt: string, lo: int, hi: int, key: string, intro: string, ending: string,
                   kp: int, ip: int, ep: int)
    requires 0 <= lo <= kp && kp + |key| <= ip && ip + |intro| <= ep
    requires ep + |ending| <= hi && ep + |ending| <= |txt|
    requires txt[kp..kp + |key|] == key && txt[ip..ip + |intro|] == intro && txt[ep..ep + |ending|] == ending
    requires forall i :: lo <= i < kp ==> !OccursAt(txt, key, i)
    requires forall j :: kp + |key| <= j < ip ==> !OccursAt(txt, intro, j)
    requires forall j :: ip + |intro| <= j < ep ==> !OccursAt(txt, ending, j)
    ensures Located(txt, lo, hi, key, intro, ending, kp, ip, ep)
  {
    OccursAtSlice(txt, key, kp);
    OccursAtSlice(txt, intro, ip);
    OccursAtSlice(txt, ending, ep);
  }

  /** If the key is absent from the window, or the intro is absent after the first key,
      or the ending is absent after the first intro, the position does not advance. */
  lemma ExtractRawMiss(txt: string, lo: int, hi: int, key: string, intro: string, ending: string,
                       kp: int, ip: int)
    requires || Absent(txt, key, lo, hi)
             || (FirstAt(txt, key, lo, hi, kp) && Absent(txt, intro, kp + |key|, hi))
             || (&& FirstAt(txt, key, lo, hi, kp)
                 && FirstAt(txt, intro, kp + |key|, hi, ip)
                 && Absent(txt, ending, ip + |intro|, hi))
    ensures ExtractRaw(txt, lo, hi, key, intro, ending).after == lo
  {
    if !Absent(txt, key, lo, hi) {
      FindIsFirst(txt, key, lo, hi, kp);
      if !Absent(txt, intro, kp + |key|, hi) {
        FindIsFirst(txt, intro, kp + |key|, hi, ip);
      }
    }
  }

  /** Every advancing extraction was located: the three markers were found in order. */
  lemma ExtractRawFound(txt: string, lo: int, hi: int, key: string, intro: string, ending: string)
    requires ExtractRaw(txt, lo, hi, key, intro, ending).after != lo
    ensures var kp := Find(txt, key, lo, hi);
            var ip := Find(txt, intro, kp + |key|, hi);
            var ep := Find(txt, ending, ip + |intro|, hi);
            Located(txt, lo, hi, key, intro, ending, kp, ip, ep)
  {
    var kp := Find(txt, key, lo, hi);
    var ip := Find(txt, intro, kp + |key|, hi);
    var ep := Find(txt, ending, ip + |intro|, hi);
    assert kp != -1 && ip != -1 && ep != -1;
    FindSpec(txt, key, lo, hi);
    FindSpec(txt, intro, kp + |key|, hi);
    FindSpec(txt, ending, ip + |intro|, hi);
  }

  /** The located value never contains the value ending: the first ending after the
      intro is where the value stops. */
  lemma LocatedValueHasNoEnding(txt: string, lo: int, hi: int, key: string, intro: string,
                                ending: string, kp: int, ip: int, ep: int, j: int)
    requires |ending| > 0
    requires Located(txt, lo, hi, key, intro, ending, kp, ip, ep)
    ensures 0 <= ip + |intro| <= ep <= |txt|
    ensures !OccursAt(txt[ip + |intro|..ep], ending, j)
  {
    var a := ip + |intro|;
    if OccursAt(txt[a..ep], ending, j) {
      OccursInSlice(txt, ending, a, ep, j);
      assert false;
    }
  }

  /** A value returned by an advancing extraction never contains the value ending. */
  lemma ExtractedValueHasNoEnding(txt: string, lo: int, hi: int, key: string, intro: string,
                                  ending: string, j: int)
    requires |ending| > 0
    requires ExtractRaw(txt, lo, hi, key, intro, ending).after != lo
    ensures !OccursAt(ExtractRaw(txt, lo, hi, key, intro, ending).value, ending, j)
  {
    ExtractRawFound(txt, lo, hi, key, intro, ending);
    var kp := Find(txt, key, lo, hi);
    var ip := Find(txt, intro, kp + |key|, hi);
    var ep := Find(txt, ending, ip + |intro|, hi);
    ExtractRawHit(txt, lo, hi, key, intro, ending, kp, ip, ep);
    LocatedValueHasNoEnding(txt, lo, hi, key, intro, ending, kp, ip, ep, j);
  }

  /** The search marker for a sensor: a short device field id framed by the table-cell
      delimiters, or a localized description text preceded by a cell boundary. */
  function SearchMarker(pattern: string, descr: string): string
  {
    if descr != "" then DescrIntro + descr else KeyIntro + pattern + KeyEnding
  }

  /** Extraction of a table-cell value: search from `startPos` inside the read-ahead
      window for the sensor's marker; the value sits between two cell boundaries. */
  function ExtractStr(txt: string, startPos: int, pattern: string, descr: string): (r: Extracted)
    ensures startPos <= r.after
    ensures r.after != startPos ==> startPos < r.after <= SliceEnd(startPos + ReadAheadBlock, |txt|)
  {
    ExtractRaw(txt, startPos, startPos + ReadAheadBlock,
               SearchMarker(pattern, descr), ValueIntro, ValueEnding)
  }
}
