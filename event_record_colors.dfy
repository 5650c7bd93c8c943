/** The table from event-record type code to the colour that charts and
    colour coding use for it. The table is filled once, by fourteen puts in a
    fixed order, and every lookup falls back to light grey. */
module EventRecordColors {
  import opened Options

  /** The colour constants the table uses. */
  datatype Color =
    | Orange | Yellow | PaleGreen | Pink | BlueViolet | MidnightBlue | IndianRed
    | Cyan | Blue | LightGreen | DarkGreen | Peach | Brown | LimeGreen | LightGrey

  /** Colour of every type code the table does not hold. */
  const OtherColor: Color := LightGrey

  /** The `TYPE` codes of the fourteen event-record classes. Their values are
      defined elsewhere, so they are parameters here and may even coincide. */
  datatype TypeCodes = TypeCodes(
    domEvent: int, domEventDispatch: int, domBindingEvent: int,
    javaScriptExecution: int, layoutEvent: int, paintEvent: int,
    parseHtmlEvent: int, javaScriptCompileEvent: int, timerFiredEvent: int,
    xhrReadyStateChangeEvent: int, recalcStyleEvent: int, evalScript: int,
    garbageCollectEvent: int, mouseHoverStyleEvent: int)

  datatype Registration = Registration(code: int, color: Color)

  /** The puts of the static initialiser, in the order they run. */
  function Registrations(t: TypeCodes): seq<Registration> {
    [ Registration(t.domEvent, Orange),
      Registration(t.domEventDispatch, Yellow),
      Registration(t.domBindingEvent, PaleGreen),
      Registration(t.javaScriptExecution, Pink),
      Registration(t.layoutEvent, BlueViolet),
      Registration(t.paintEvent, MidnightBlue),
      Registration(t.parseHtmlEvent, IndianRed),
      Registration(t.javaScriptCompileEvent, Cyan),
      Registration(t.timerFiredEvent, Blue),
      Registration(t.xhrReadyStateChangeEvent, LightGreen),
      Registration(t.recalcStyleEvent, DarkGreen),
      Registration(t.evalScript, Peach),
      Registration(t.garbageCollectEvent, Brown),
      Registration(t.mouseHoverStyleEvent, LimeGreen) ]
  }

  /** Runs the puts `regs` in order on `m`; a later put of a code replaces an
      earlier one. The keys afterwards are the old keys and the codes put. */
  function PutAll(m: map<int, Color>, regs: seq<Registration>): (r: map<int, Color>)
    ensures r.Keys == m.Keys + (set i | 0 <= i < |regs| :: regs[i].code)
    decreases |regs|
  {
    if regs == [] then m
    else
      var r := PutAll(m[regs[0].code := regs[0].color], regs[1..]);
      assert (set i | 0 <= i < |regs| :: regs[i].code)
          == {regs[0].code} + (set i | 0 <= i < |regs[1..]| :: regs[1..][i].code) by {
        forall i | 0 <= i < |regs|
          ensures regs[i].code in {regs[0].code} + (set j | 0 <= j < |regs[1..]| :: regs[1..][j].code)
        {
          if i > 0 { assert regs[1..][i - 1].code == regs[i].code; }
        }
      }
      r
  }

  /** The last put of `k` among `regs`, if any: an independent reading of the
      put sequence, searched from the end. */
  function LastPut(regs: seq<Registration>, k: int): Option<Color>
    decreases |regs|
  {
    if regs == [] then None
    else if regs[|regs| - 1].code == k then Some(regs[|regs| - 1].color)
    else LastPut(regs[..|regs| - 1], k)
  }

  /** The table as the static initialiser leaves it; nothing writes to it
      afterwards. Its keys are exactly the fourteen registered codes. */
  function ColorMap(t: TypeCodes): (m: map<int, Color>)
    ensures m.Keys == set i | 0 <= i < |Registrations(t)| :: Registrations(t)[i].code
  {
    PutAll(map[], Registrations(t))
  }

  /** The colour for a type code: the colour of the last put of that code, or
      the fallback when no put mentions it. */
  function GetColorForType(t: TypeCodes, typeCode: int): (c: Color)
    ensures c == match LastPut(Registrations(t), typeCode)
                 case Some(registered) => registered
                 case None => OtherColor
  {
    PutAllMatchesLastPut(map[], Registrations(t), typeCode);
    var colorMap := ColorMap(t);
    if typeCode in colorMap then colorMap[typeCode] else OtherColor
  }

  /** Putting one more registration at the end updates that one key. */
  lemma {:induction false} PutAllSnoc(m: map<int, Color>, regs: seq<Registration>, last: Registration)
    ensures PutAll(m, regs + [last]) == PutAll(m, regs)[last.code := last.color]
    decreases |regs|
  {
    if regs == [] {
      assert regs + [last] == [last];
      assert [last][1..] == [];
    } else {
      assert (regs + [last])[1..] == regs[1..] + [last];
      PutAllSnoc(m[regs[0].code := regs[0].color], regs[1..], last);
    }
  }

  /** Running the puts agrees with searching them from the end. */
  lemma {:induction false} PutAllMatchesLastPut(m: map<int, Color>, regs: seq<Registration>, k: int)
    ensures LastPut(regs, k).Some? ==> k in PutAll(m, regs) && PutAll(m, regs)[k] == LastPut(regs, k).value
    ensures LastPut(regs, k).None? ==> (k in PutAll(m, regs) <==> k in m)
    ensures LastPut(regs, k).None? && k in m ==> PutAll(m, regs)[k] == m[k]
    decreases |regs|
  {
    if regs != [] {
      var init, last := regs[..|regs| - 1], regs[|regs| - 1];
      assert regs == init + [last];
      PutAllSnoc(m, init, last);
      PutAllMatchesLastPut(m, init, k);
    }
  }

  /** A code that no put mentions keeps whatever the map had before. */
  lemma {:induction false} PutAllUntouched(m: map<int, Color>, regs: seq<Registration>, k: int)
    requires forall i :: 0 <= i < |regs| ==> regs[i].code != k
    ensures k in PutAll(m, regs) <==> k in m
    ensures k in m ==> PutAll(m, regs)[k] == m[k]
    decreases |regs|
  {
    if regs != [] {
      assert regs[0].code != k;
      PutAllUntouched(m[regs[0].code := regs[0].color], regs[1..], k);
    }
  }

  /** The last put of a code decides its colour. */
  lemma {:induction false} PutAllLastWins(m: map<int, Color>, regs: seq<Registration>, i: nat)
    requires i < |regs|
    requires forall j :: i < j < |regs| ==> regs[j].code != regs[i].code
    ensures regs[i].code in PutAll(m, regs)
    ensures PutAll(m, regs)[regs[i].code] == regs[i].color
    decreases |regs|
  {
    var m' := m[regs[0].code := regs[0].color];
    if i == 0 {
      PutAllUntouched(m', regs[1..], regs[0].code);
    } else {
      PutAllLastWins(m', regs[1..], i - 1);
    }
  }

  /** Every key of the table was put by some registration. */
  lemma {:induction false} PutAllKeys(m: map<int, Color>, regs: seq<Registration>, k: int)
    requires k in PutAll(m, regs)
    ensures k in m || exists i :: 0 <= i < |regs| && regs[i].code == k
    decreases |regs|
  {
    if regs != [] {
      PutAllKeys(m[regs[0].code := regs[0].color], regs[1..], k);
      if k !in m && k != regs[0].code {
        var i :| 0 <= i < |regs[1..]| && regs[1..][i].code == k;
        assert regs[i + 1].code == k;
      }
    }
  }

  /** A registered code gets the colour of its last put. */
  lemma ColorForRegisteredType(t: TypeCodes, i: nat)
    requires i < |Registrations(t)|
    requires forall j :: i < j < |Registrations(t)| ==> Registrations(t)[j].code != Registrations(t)[i].code
    ensures GetColorForType(t, Registrations(t)[i].code) == Registrations(t)[i].color
  {
    PutAllLastWins(map[], Registrations(t), i);
  }

  /** A code no put mentions gets the fallback colour. */
  lemma ColorForUnregisteredType(t: TypeCodes, typeCode: int)
    requires forall i :: 0 <= i < |Registrations(t)| ==> Registrations(t)[i].code != typeCode
    ensures GetColorForType(t, typeCode) == LightGrey
  {
    PutAllUntouched(map[], Registrations(t), typeCode);
  }

  /** Every answer is a registered colour or the fallback: the lookup never invents one. */
  lemma ColorForTypeIsRegisteredOrFallback(t: TypeCodes, typeCode: int)
    ensures GetColorForType(t, typeCode) == LightGrey
         || exists i :: 0 <= i < |Registrations(t)| && Registrations(t)[i] == Registration(typeCode, GetColorForType(t, typeCode))
  {
    if typeCode in ColorMap(t) {
      PutAllKeys(map[], Registrations(t), typeCode);
      var regs := Registrations(t);
      var i :| 0 <= i < |regs| && regs[i].code == typeCode;
      // The last put of the code decides.
      var last := LastPutOf(regs, typeCode, i);
      PutAllLastWins(map[], regs, last);
    }
  }

  /** Index of the last put of `k` at or after the put `i` of it. */
  ghost function LastPutOf(regs: seq<Registration>, k: int, i: nat): (last: nat)
    requires i < |regs| && regs[i].code == k
    ensures i <= last < |regs| && regs[last].code == k
    ensures forall j :: last < j < |regs| ==> regs[j].code != k
    decreases |regs| - i
  {
    if exists j :: i < j < |regs| && regs[j].code == k then
      var j :| i < j < |regs| && regs[j].code == k;
      LastPutOf(regs, k, j)
    else i
  }

  lemma DomEventIsOrange(t: TypeCodes)
    requires forall j :: 1 <= j < 14 ==> Registrations(t)[j].code != t.domEvent
    ensures GetColorForType(t, t.domEvent) == Orange
  {
    ColorForRegisteredType(t, 0);
  }

  lemma TimerFiredEventIsBlue(t: TypeCodes)
    requires forall j :: 9 <= j < 14 ==> Registrations(t)[j].code != t.timerFiredEvent
    ensures GetColorForType(t, t.timerFiredEvent) == Blue
  {
    ColorForRegisteredType(t, 8);
  }

  lemma GarbageCollectEventIsBrown(t: TypeCodes)
    requires t.mouseHoverStyleEvent != t.garbageCollectEvent
    ensures GetColorForType(t, t.garbageCollectEvent) == Brown
  {
    ColorForRegisteredType(t, 12);
  }
}
