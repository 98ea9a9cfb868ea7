/** The preset catalogue of FocusFlow/ViewModels/PresetStore.swift over an
    in-memory list of stored records.

    The Core Data context becomes the sequence `records`; a fetch sorted by
    `sortOrder` then `createdAt` becomes `Load`; `UUID()` and `Date()`
    become parameters.  Durations handed to `addPreset` and `update` are
    `TimeInterval`s and are modelled as `real`; stored durations are whole
    seconds. */
module PresetStore {
  import opened Wrappers
  import opened Text

  /** A stored `Preset` entity; `objectID` identifies the managed object. */
  datatype PresetRecord = PresetRecord(
    objectID: nat,
    id: Option<nat>,
    name: Option<string>,
    workDuration: int,
    breakDuration: int,
    cycles: int,
    accentColorHex: Option<string>,
    isDefault: bool,
    sortOrder: int,
    createdAt: int)

  /** `PresetViewData`: a record that has both an id and a name. */
  datatype PresetViewData = PresetViewData(
    objectID: nat,
    id: nat,
    name: string,
    workDuration: int,
    breakDuration: int,
    cycles: int,
    accentColorHex: Option<string>,
    isDefault: bool,
    sortOrder: int)

  datatype PresetError = EmptyName | InvalidDuration

  /** The store: the stored records, the published `presets`, and the next
      object identifier the context will hand out. */
  datatype Store = Store(records: seq<PresetRecord>, presets: seq<PresetViewData>, nextObject: nat)

  // ---------------------------------------------------------------------
  // Display title: stripping a trailing " <digits>/<digits>" hint
  // ---------------------------------------------------------------------

  /** ICU's `\s`: tab, line feed, form feed, carriage return and the
      Unicode separators (category Z). */
  predicate IsRegexSpace(c: char) {
    c == '\t' || c == '\n' || c == '\U{C}' || c == '\r' || c == ' ' || c == '\U{A0}' || c == '\U{1680}'
    || ('\U{2000}' <= c <= '\U{200A}') || c == '\U{2028}' || c == '\U{2029}'
    || c == '\U{202F}' || c == '\U{205F}' || c == '\U{3000}'
  }

  /** A line terminator, before which ICU's `$` also matches when it is the
      last character of the input; a final carriage return and line feed
      count as one terminator. */
  predicate IsLineTerminator(c: char) {
    ('\n' <= c <= '\r') || c == '\U{85}' || c == '\U{2028}' || c == '\U{2029}'
  }

  /** Every character of `s` from `a` up to `b` is a decimal digit. */
  predicate DigitsIn(s: string, a: int, b: int)
    requires 0 <= a <= b <= |s|
  {
    forall k :: a <= k < b ==> IsDigit(s[k])
  }

  /** The suffix of `s` from `i` is entirely a match of `\s\d+/\d+`. */
  predicate HintAt(s: string, i: int) {
    && 0 <= i && i + 4 <= |s|
    && IsRegexSpace(s[i])
    && exists j :: i + 2 <= j <= |s| - 2 && s[j] == '/' && DigitsIn(s, i + 1, j) && DigitsIn(s, j + 1, |s|)
  }

  /** No suffix of `s` matches `\s\d+/\d+`. */
  predicate NoHintSuffix(s: string) {
    forall i :: 0 <= i <= |s| ==> !HintAt(s, i)
  }

  /** The length of the run of decimal digits ending just before `end`. */
  function DigitRun(s: string, end: nat): (k: nat)
    requires end <= |s|
    ensures k <= end && DigitsIn(s, end - k, end)
    ensures k < end ==> !IsDigit(s[end - k - 1])
  {
    if end > 0 && IsDigit(s[end - 1]) then DigitRun(s, end - 1) + 1 else 0
  }

  /** A maximal digit run from `a` to `end` is the one `DigitRun` finds. */
  lemma DigitRunExact(s: string, a: nat, end: nat)
    requires a <= end <= |s| && DigitsIn(s, a, end) && (a == 0 || !IsDigit(s[a - 1]))
    ensures DigitRun(s, end) == end - a
  {
  }

  /** Where the one suffix of `s` matching `\s\d+/\d+` starts, if any:
      the trailing digits, a slash before them, more digits before that,
      and a space character before those. */
  function HintStart(s: string): (r: Option<nat>)
    ensures r.Some? ==> HintAt(s, r.value)
    ensures r.None? <==> NoHintSuffix(s)
  {
    var k := DigitRun(s, |s|);
    if k == 0 || k + 1 > |s| || s[|s| - k - 1] != '/' then
      NoHintWithoutSlashDigits(s);
      None
    else
      var slash := |s| - k - 1;
      var m := DigitRun(s, slash);
      if m == 0 || m + 1 > slash || !IsRegexSpace(s[slash - m - 1]) then
        NoHintWithoutSpaceDigits(s);
        None
      else
        assert DigitsIn(s, slash - m, slash) && DigitsIn(s, slash + 1, |s|);
        assert HintAt(s, slash - m - 1);
        Some(slash - m - 1)
  }

  /** In a hint starting at `i` with its slash at `j`, the slash is the one
      before the trailing digits, and the digits before it run back to `i`. */
  lemma HintShape(s: string, i: int, j: int)
    requires 0 <= i && i + 2 <= j <= |s| - 2 && IsRegexSpace(s[i]) && s[j] == '/'
    requires DigitsIn(s, i + 1, j) && DigitsIn(s, j + 1, |s|)
    ensures DigitRun(s, |s|) == |s| - j - 1
    ensures DigitRun(s, j) == j - i - 1
  {
    DigitRunExact(s, j + 1, |s|);
    DigitRunExact(s, i + 1, j);
  }

  lemma NoHintWithoutSlashDigits(s: string)
    requires var k := DigitRun(s, |s|); k == 0 || k + 1 > |s| || s[|s| - k - 1] != '/'
    ensures NoHintSuffix(s)
  {
    forall i | 0 <= i <= |s| ensures !HintAt(s, i) {
      HintFound(s, i);
    }
  }

  lemma NoHintWithoutSpaceDigits(s: string)
    requires var k := DigitRun(s, |s|); k > 0 && k + 1 <= |s| && s[|s| - k - 1] == '/'
    requires var slash := |s| - DigitRun(s, |s|) - 1; var m := DigitRun(s, slash);
             m == 0 || m + 1 > slash || !IsRegexSpace(s[slash - m - 1])
    ensures NoHintSuffix(s)
  {
    forall i | 0 <= i <= |s| ensures !HintAt(s, i) {
      HintFound(s, i);
    }
  }

  /** A match found at `i` is where the trailing digits, the slash, the
      digits before it and the space character say it is. */
  lemma HintFound(s: string, i: int)
    ensures HintAt(s, i) ==>
              var k := DigitRun(s, |s|);
              && k > 0 && k + 1 <= |s| && s[|s| - k - 1] == '/'
              && var slash := |s| - k - 1; var m := DigitRun(s, slash);
              && m > 0 && m + 1 <= slash && IsRegexSpace(s[slash - m - 1]) && i == slash - m - 1
  {
    if HintAt(s, i) {
      var j :| i + 2 <= j <= |s| - 2 && s[j] == '/' && DigitsIn(s, i + 1, j) && DigitsIn(s, j + 1, |s|);
      HintShape(s, i, j);
    }
  }

  /** At most one suffix matches, so the leftmost match is the only one. */
  lemma HintUnique(s: string, i: int, i': int)
    requires HintAt(s, i) && HintAt(s, i')
    ensures i == i'
  {
    var j :| i + 2 <= j <= |s| - 2 && s[j] == '/' && DigitsIn(s, i + 1, j) && DigitsIn(s, j + 1, |s|);
    var j' :| i' + 2 <= j' <= |s| - 2 && s[j'] == '/' && DigitsIn(s, i' + 1, j') && DigitsIn(s, j' + 1, |s|);
    HintShape(s, i, j);
    HintShape(s, i', j');
  }

  /** `s` ends in a carriage return followed by a line feed. */
  predicate EndsWithCrlf(s: string) {
    |s| >= 2 && s[|s| - 2] == '\r' && s[|s| - 1] == '\n'
  }

  /** `stringByReplacingMatches` with the pattern `\s\d+/\d+$` and an empty
      template: the hint is removed where it ends the string, or where it
      ends just before a final line terminator or a final "\r\n". */
  function StripDurationHint(s: string): string {
    match HintStart(s)
    case Some(i) => s[..i]
    case None =>
      if EndsWithCrlf(s) then
        match HintStart(s[..|s| - 2])
        case Some(i) => s[..i] + s[|s| - 2..]
        case None => s
      else if |s| > 0 && IsLineTerminator(s[|s| - 1]) then
        match HintStart(s[..|s| - 1])
        case Some(i) => s[..i] + [s[|s| - 1]]
        case None => s
      else s
  }

  /** `PresetViewData.displayTitle`. */
  function DisplayTitle(name: string): string {
    Trim(StripDurationHint(name))
  }

  /** A name ending in a hint displays as its trimmed stem: the hint found
      starts right after the stem. */
  lemma DisplayTitleDropsHint(stem: string, space: char, work: string, brk: string)
    requires IsRegexSpace(space) && |work| > 0 && |brk| > 0 && AllDigits(work) && AllDigits(brk)
    ensures HintStart(stem + [space] + work + "/" + brk) == Some(|stem|)
    ensures StripDurationHint(stem + [space] + work + "/" + brk) == stem
    ensures DisplayTitle(stem + [space] + work + "/" + brk) == Trim(stem)
  {
    var s := stem + [space] + work + "/" + brk;
    var j := |stem| + 1 + |work|;
    assert s[j] == '/';
    assert DigitsIn(s, |stem| + 1, j) by {
      forall k | |stem| + 1 <= k < j ensures IsDigit(s[k]) {
        assert s[k] == work[k - |stem| - 1];
      }
    }
    assert DigitsIn(s, j + 1, |s|) by {
      forall k | j + 1 <= k < |s| ensures IsDigit(s[k]) {
        assert s[k] == brk[k - j - 1];
      }
    }
    assert HintAt(s, |stem|);
    HintUnique(s, HintStart(s).value, |stem|);
    assert s[..|stem|] == stem;
  }

  /** What may follow the hint for `$` still to match: one line terminator,
      or a carriage return and a line feed. */
  predicate FinalTerminator(t: string) {
    (|t| == 2 && EndsWithCrlf(t)) || (|t| == 1 && IsLineTerminator(t[0]))
  }

  lemma FinalTerminatorIsWhitespace(t: string)
    requires FinalTerminator(t)
    ensures forall k :: 0 <= k < |t| ==> IsWhitespace(t[k]) && !IsDigit(t[k])
  {
  }

  /** A hint followed by a final line terminator, or by a final "\r\n",
      is dropped as well, and the terminator goes with the trimming. */
  lemma DisplayTitleDropsHintBeforeTerminator(stem: string, space: char, work: string, brk: string, term: string)
    requires IsRegexSpace(space) && |work| > 0 && |brk| > 0 && AllDigits(work) && AllDigits(brk)
    requires FinalTerminator(term)
    ensures DisplayTitle(stem + [space] + work + "/" + brk + term) == Trim(stem)
  {
    var h := stem + [space] + work + "/" + brk;
    DisplayTitleDropsHint(stem, space, work, brk);
    HintBeforeTerminator(h, term);
    FinalTerminatorIsWhitespace(term);
    TrimDropsTrailingWhitespace(stem, term);
  }

  /** The hint of `h` is still removed when a final line terminator or a
      final "\r\n" follows it, and the terminator is kept. */
  lemma HintBeforeTerminator(h: string, term: string)
    requires HintStart(h).Some?
    requires FinalTerminator(term)
    ensures StripDurationHint(h + term) == StripDurationHint(h) + term
  {
    if |term| == 1 {
      assert term == [term[0]];
      HintBeforeLineTerminator(h, term[0]);
    } else {
      HintBeforeCrlf(h, term);
    }
  }

  lemma HintBeforeLineTerminator(h: string, c: char)
    requires HintStart(h).Some? && IsLineTerminator(c)
    ensures StripDurationHint(h + [c]) == StripDurationHint(h) + [c]
  {
    var s := h + [c];
    var i := HintStart(h).value;
    assert StripDurationHint(h) == h[..i];
    HintEndsInDigit(h, i);
    EndsWithoutDigit(s);
    assert s[|s| - 2] == h[|h| - 1];
    assert !EndsWithCrlf(s);
    assert s[..|s| - 1] == h;
    assert StripDurationHint(s) == s[..i] + [c];
    assert s[..i] == h[..i];
  }

  lemma HintBeforeCrlf(h: string, crlf: string)
    requires HintStart(h).Some? && |crlf| == 2 && EndsWithCrlf(crlf)
    ensures StripDurationHint(h + crlf) == StripDurationHint(h) + crlf
  {
    var s := h + crlf;
    var i := HintStart(h).value;
    assert StripDurationHint(h) == h[..i];
    assert s[|s| - 1] == '\n';
    EndsWithoutDigit(s);
    assert EndsWithCrlf(s);
    assert s[..|s| - 2] == h && s[|s| - 2..] == crlf;
    assert StripDurationHint(s) == s[..i] + crlf;
    assert s[..i] == h[..i];
  }

  /** A string whose last character is not a digit has no hint at its end. */
  lemma EndsWithoutDigit(s: string)
    requires |s| > 0 && !IsDigit(s[|s| - 1])
    ensures HintStart(s) == None
  {
    forall i | 0 <= i <= |s| ensures HintAt(s, i) ==> IsDigit(s[|s| - 1]) {
      if HintAt(s, i) {
        HintEndsInDigit(s, i);
      }
    }
  }

  /** A hint ends in a digit. */
  lemma HintEndsInDigit(s: string, i: int)
    requires HintAt(s, i)
    ensures IsDigit(s[|s| - 1])
  {
    var j :| i + 2 <= j <= |s| - 2 && s[j] == '/' && DigitsIn(s, i + 1, j) && DigitsIn(s, j + 1, |s|);
  }

  /** A name with no hint at its end, nor before a final line terminator or
      a final "\r\n", is only trimmed. */
  lemma DisplayTitleWithoutHint(name: string)
    requires NoHintSuffix(name)
    requires |name| > 0 && IsLineTerminator(name[|name| - 1]) ==> NoHintSuffix(name[..|name| - 1])
    requires EndsWithCrlf(name) ==> NoHintSuffix(name[..|name| - 2])
    ensures DisplayTitle(name) == Trim(name)
  {
  }

  /** `workMinutes` / `breakMinutes`: `Int(duration / 60)`, truncating. */
  function WholeMinutes(seconds: int): (m: int)
    ensures seconds >= 0 ==> 0 <= m && m * 60 <= seconds < m * 60 + 60
    ensures seconds < 0 ==> m <= 0 && m * 60 - 60 < seconds <= m * 60
  {
    TruncDiv(seconds, 60)
  }

  // ---------------------------------------------------------------------
  // Loading: sorted fetch, then `compactMap(PresetViewData.init)`
  // ---------------------------------------------------------------------

  /** The fetch order: `sortOrder` ascending, then `createdAt` ascending. */
  predicate FetchOrder(a: PresetRecord, b: PresetRecord) {
    a.sortOrder < b.sortOrder || (a.sortOrder == b.sortOrder && a.createdAt <= b.createdAt)
  }

  predicate FetchSorted(rs: seq<PresetRecord>) {
    forall i, j :: 0 <= i < j < |rs| ==> FetchOrder(rs[i], rs[j])
  }

  function Insert(r: PresetRecord, rs: seq<PresetRecord>): (out: seq<PresetRecord>)
    requires FetchSorted(rs)
    ensures FetchSorted(out) && multiset(out) == multiset(rs) + multiset{r}
    ensures |out| == |rs| + 1
  {
    if rs == [] || FetchOrder(r, rs[0]) then [r] + rs
    else
      var tail := Insert(r, rs[1..]);
      InsertBehindHead(r, rs, tail);
      [rs[0]] + tail
  }

  lemma InsertBehindHead(r: PresetRecord, rs: seq<PresetRecord>, tail: seq<PresetRecord>)
    requires rs != [] && FetchSorted(rs) && !FetchOrder(r, rs[0])
    requires FetchSorted(tail) && multiset(tail) == multiset(rs[1..]) + multiset{r}
    ensures FetchSorted([rs[0]] + tail) && multiset([rs[0]] + tail) == multiset(rs) + multiset{r}
  {
    assert rs == [rs[0]] + rs[1..];
    forall k | 0 <= k < |tail| ensures FetchOrder(rs[0], tail[k]) {
      assert tail[k] in multiset(tail);
      if tail[k] != r {
        assert tail[k] in multiset(rs[1..]);
        var n :| 0 <= n < |rs[1..]| && rs[1..][n] == tail[k];
        assert FetchOrder(rs[0], rs[n + 1]);
      }
    }
    var out := [rs[0]] + tail;
    forall i, j | 0 <= i < j < |out| ensures FetchOrder(out[i], out[j]) {
      if i == 0 {
        assert out[j] == tail[j - 1];
      } else {
        assert out[i] == tail[i - 1] && out[j] == tail[j - 1];
      }
    }
  }

  /** The fetch's sorting, as a stable insertion sort. */
  function SortRecords(rs: seq<PresetRecord>): (out: seq<PresetRecord>)
    ensures FetchSorted(out) && multiset(out) == multiset(rs)
    ensures |out| == |rs|
  {
    if rs == [] then []
    else
      assert rs == [rs[0]] + rs[1..];
      Insert(rs[0], SortRecords(rs[1..]))
  }

  /** `PresetViewData.init?(managedObject:)`. */
  function ViewOf(r: PresetRecord): Option<PresetViewData> {
    if r.id.Some? && r.name.Some? then
      Some(PresetViewData(r.objectID, r.id.value, r.name.value, r.workDuration, r.breakDuration,
                          r.cycles, r.accentColorHex, r.isDefault, r.sortOrder))
    else None
  }

  /** `compactMap(PresetViewData.init)`. */
  function Compact(rs: seq<PresetRecord>): (vs: seq<PresetViewData>)
    ensures |vs| <= |rs|
  {
    if rs == [] then []
    else
      var rest := Compact(rs[1..]);
      match ViewOf(rs[0])
      case Some(v) => [v] + rest
      case None => rest
  }

  lemma {:induction false} CompactAppend(a: seq<PresetRecord>, b: seq<PresetRecord>)
    ensures Compact(a + b) == Compact(a) + Compact(b)
  {
    if a != [] {
      assert (a + b)[1..] == a[1..] + b;
      CompactAppend(a[1..], b);
    } else {
      assert a + b == b;
    }
  }

  lemma {:induction false} CompactInsert(r: PresetRecord, rs: seq<PresetRecord>)
    requires FetchSorted(rs)
    ensures multiset(Compact(Insert(r, rs))) == multiset(Compact([r])) + multiset(Compact(rs))
  {
    if rs == [] || FetchOrder(r, rs[0]) {
      CompactAppend([r], rs);
    } else {
      CompactInsert(r, rs[1..]);
      CompactAppend([rs[0]], Insert(r, rs[1..]));
      CompactAppend([rs[0]], rs[1..]);
      assert [rs[0]] + rs[1..] == rs;
    }
  }

  lemma {:induction false} CompactSorted(rs: seq<PresetRecord>)
    ensures multiset(Compact(SortRecords(rs))) == multiset(Compact(rs))
  {
    if rs != [] {
      CompactSorted(rs[1..]);
      CompactInsert(rs[0], SortRecords(rs[1..]));
      CompactAppend([rs[0]], rs[1..]);
      assert [rs[0]] + rs[1..] == rs;
    }
  }

  /** A lower bound on the records' sort orders bounds their views'. */
  lemma {:induction false} CompactBounded(rs: seq<PresetRecord>, low: int)
    requires forall k :: 0 <= k < |rs| ==> low <= rs[k].sortOrder
    ensures forall v :: v in Compact(rs) ==> low <= v.sortOrder
  {
    if rs != [] {
      CompactBounded(rs[1..], low);
    }
  }

  lemma {:induction false} CompactKeepsOrder(rs: seq<PresetRecord>)
    requires FetchSorted(rs)
    ensures forall i, j :: 0 <= i < j < |Compact(rs)| ==> Compact(rs)[i].sortOrder <= Compact(rs)[j].sortOrder
  {
    if rs != [] {
      CompactKeepsOrder(rs[1..]);
      assert forall k :: 0 <= k < |rs[1..]| ==> FetchOrder(rs[0], rs[1..][k]);
      CompactBounded(rs[1..], rs[0].sortOrder);
    }
  }

  /** `loadPresets()`: the valid records in fetch order.  The result holds
      exactly the views of the records that have an id and a name, and is
      ordered by `sortOrder`. */
  function Load(rs: seq<PresetRecord>): (vs: seq<PresetViewData>)
    ensures multiset(vs) == multiset(Compact(rs))
    ensures forall i, j :: 0 <= i < j < |vs| ==> vs[i].sortOrder <= vs[j].sortOrder
  {
    CompactSorted(rs);
    CompactKeepsOrder(SortRecords(rs));
    Compact(SortRecords(rs))
  }

  /** Records already in fetch order load in their own order. */
  lemma {:induction false} SortedIsIdentity(rs: seq<PresetRecord>)
    requires FetchSorted(rs)
    ensures SortRecords(rs) == rs
  {
    if rs != [] {
      SortedIsIdentity(rs[1..]);
      assert [rs[0]] + rs[1..] == rs;
    }
  }

  // ---------------------------------------------------------------------
  // Store operations
  // ---------------------------------------------------------------------

  /** The store's consistency: `presets` is what `loadPresets()` gives, and
      every object identifier is distinct and below `nextObject`. */
  predicate Wf(st: Store) {
    && st.presets == Load(st.records)
    && (forall i :: 0 <= i < |st.records| ==> st.records[i].objectID < st.nextObject)
    && (forall i, j :: 0 <= i < j < |st.records| ==> st.records[i].objectID != st.records[j].objectID)
  }

  /** `preset(with:)`: with no id, the first preset; otherwise the first
      preset with that id, if any. */
  function PresetWith(presets: seq<PresetViewData>, id: Option<nat>): (r: Option<PresetViewData>)
    ensures id.None? ==> (r.Some? <==> |presets| > 0) && (r.Some? ==> r.value == presets[0])
    ensures id.Some? ==> (r.Some? <==> exists i :: 0 <= i < |presets| && presets[i].id == id.value)
    ensures id.Some? && r.Some? ==>
              exists i :: 0 <= i < |presets| && presets[i] == r.value && r.value.id == id.value
                          && forall k :: 0 <= k < i ==> presets[k].id != id.value
  {
    match id
    case None => if |presets| > 0 then Some(presets[0]) else None
    case Some(x) =>
      match FirstWithId(presets, x)
      case None => None
      case Some(i) => Some(presets[i])
  }

  /** The position of the first preset with id `x`. */
  function FirstWithId(presets: seq<PresetViewData>, x: nat): (r: Option<nat>)
    ensures r.None? <==> forall i :: 0 <= i < |presets| ==> presets[i].id != x
    ensures r.Some? ==> r.value < |presets| && presets[r.value].id == x
                        && forall k :: 0 <= k < r.value ==> presets[k].id != x
  {
    if presets == [] then None
    else if presets[0].id == x then Some(0)
    else
      assert forall i :: 1 <= i < |presets| ==> presets[i] == presets[1..][i - 1];
      match FirstWithId(presets[1..], x)
      case None => None
      case Some(i) => Some(i + 1)
  }

  /** `validate(name:work:brk:)`: the name is checked first, then both
      durations. */
  function Validate(name: string, work: real, brk: real): (r: Outcome<PresetError>)
    ensures r == Fail(EmptyName) <==> IsBlank(name)
    ensures r == Fail(InvalidDuration) <==> !IsBlank(name) && (work <= 0.0 || brk <= 0.0)
    ensures r == Pass <==> !IsBlank(name) && work > 0.0 && brk > 0.0
  {
    if IsBlank(name) then Fail(EmptyName)
    else if !(work > 0.0 && brk > 0.0) then Fail(InvalidDuration)
    else Pass
  }

  /** `PresetStoreError.errorDescription`. */
  function ErrorDescription(e: PresetError): string {
    match e
    case EmptyName => "Preset name cannot be empty."
    case InvalidDuration => "Work and break durations must be greater than zero."
  }

  /** The sort order of a new preset: one past the largest in use, or 0. */
  function NextSortOrder(presets: seq<PresetViewData>): (n: int)
    ensures presets == [] ==> n == 0
    ensures forall i :: 0 <= i < |presets| ==> presets[i].sortOrder < n
    ensures presets != [] ==> exists i :: 0 <= i < |presets| && n == presets[i].sortOrder + 1
  {
    if presets == [] then 0
    else
      var rest := NextSortOrder(presets[1..]);
      assert forall i :: 1 <= i < |presets| ==> presets[i] == presets[1..][i - 1];
      if presets[1..] == [] || presets[0].sortOrder + 1 >= rest then presets[0].sortOrder + 1
      else
        var i :| 0 <= i < |presets[1..]| && rest == presets[1..][i].sortOrder + 1;
        assert presets[i + 1] == presets[1..][i];
        rest
  }

  /** The record `addPreset` creates. */
  function NewRecord(st: Store, name: string, work: real, brk: real, cycles: int,
                     accent: Option<string>, uuid: nat, now: int): PresetRecord
  {
    PresetRecord(st.nextObject, Some(uuid), Some(name), TruncReal(work), TruncReal(brk),
                 cycles, accent, false, NextSortOrder(st.presets), now)
  }

  /** `addPreset(...)`: on a validation error nothing changes; otherwise
      exactly one non-default preset is added, after every existing one in
      sort order. */
  function AddPreset(st: Store, name: string, work: real, brk: real, cycles: int,
                     accent: Option<string>, uuid: nat, now: int): (r: Result<Store, PresetError>)
    requires Wf(st)
    ensures r.Failure? <==> Validate(name, work, brk).Fail?
    ensures r.Failure? ==> r.error == Validate(name, work, brk).error
    ensures r.Success? ==>
              && Wf(r.value)
              && |r.value.records| == |st.records| + 1
              && (forall i :: 0 <= i < |st.records| ==> r.value.records[i] == st.records[i])
  {
    match Validate(name, work, brk)
    case Fail(e) => Failure(e)
    case Pass =>
      var rec := NewRecord(st, name, work, brk, cycles, accent, uuid, now);
      var records := st.records + [rec];
      AppendRecord(st, rec);
      Success(Store(records, Load(records), st.nextObject + 1))
  }

  /** A successful `addPreset` publishes exactly one more preset: a
      non-default one with the given name, id and truncated durations,
      sorted after every existing preset (at 0 in an empty store). */
  lemma AddPresetAdds(st: Store, name: string, work: real, brk: real, cycles: int,
                      accent: Option<string>, uuid: nat, now: int)
    requires Wf(st) && Validate(name, work, brk).Pass?
    ensures var r := AddPreset(st, name, work, brk, cycles, accent, uuid, now);
            r.Success? &&
            exists added: PresetViewData ::
              && multiset(r.value.presets) == multiset(st.presets) + multiset{added}
              && added.name == name && !added.isDefault && added.id == uuid
              && added.workDuration == TruncReal(work) && added.breakDuration == TruncReal(brk)
              && added.cycles == cycles && added.accentColorHex == accent
              && (forall p :: p in st.presets ==> p.sortOrder < added.sortOrder)
              && (st.presets == [] ==> added.sortOrder == 0)
  {
    var rec := NewRecord(st, name, work, brk, cycles, accent, uuid, now);
    AppendRecord(st, rec);
    var added := ViewOf(rec).value;
    forall p | p in st.presets ensures p.sortOrder < added.sortOrder {
      var i :| 0 <= i < |st.presets| && st.presets[i] == p;
    }
  }

  /** Appending a record with a fresh object identifier keeps the store
      consistent and adds exactly its view to the loaded presets. */
  lemma AppendRecord(st: Store, rec: PresetRecord)
    requires Wf(st) && rec.objectID == st.nextObject && ViewOf(rec).Some?
    ensures var records := st.records + [rec];
            && Wf(Store(records, Load(records), st.nextObject + 1))
            && multiset(Load(records)) == multiset(st.presets) + multiset{ViewOf(rec).value}
            && forall i :: 0 <= i < |st.records| ==> records[i] == st.records[i]
  {
    AppendFresh(st.records, st.nextObject, rec);
    LoadAppend(st.records, rec);
  }

  /** A record with the next identifier keeps the identifiers below the
      new bound and pairwise distinct. */
  lemma AppendFresh(rs: seq<PresetRecord>, bound: nat, rec: PresetRecord)
    requires forall i :: 0 <= i < |rs| ==> rs[i].objectID < bound
    requires forall i, j :: 0 <= i < j < |rs| ==> rs[i].objectID != rs[j].objectID
    requires rec.objectID == bound
    ensures var records := rs + [rec];
            && (forall i :: 0 <= i < |records| ==> records[i].objectID < bound + 1)
            && (forall i, j :: 0 <= i < j < |records| ==> records[i].objectID != records[j].objectID)
  {
    var records := rs + [rec];
    forall i | 0 <= i < |records| ensures records[i].objectID < bound + 1 {
      if i < |rs| {
        assert records[i] == rs[i];
      }
    }
    forall i, j | 0 <= i < j < |records| ensures records[i].objectID != records[j].objectID {
      assert records[i] == rs[i];
      if j < |rs| {
        assert records[j] == rs[j];
      }
    }
  }

  /** Loading one more record with an id and a name loads one more view. */
  lemma LoadAppend(rs: seq<PresetRecord>, rec: PresetRecord)
    requires ViewOf(rec).Some?
    ensures multiset(Load(rs + [rec])) == multiset(Load(rs)) + multiset{ViewOf(rec).value}
  {
    CompactAppend(rs, [rec]);
    assert Compact([rec]) == [ViewOf(rec).value] by {
      assert [rec][1..] == [];
    }
  }

  /** `update(preset:...)`: validation first; a preset whose object no
      longer exists is silently left alone; otherwise its record takes the
      new name, truncated durations, cycles and accent, and keeps its
      identity, default flag, sort order and creation date. */
  function Update(st: Store, target: PresetViewData, name: string, work: real, brk: real,
                  cycles: int, accent: Option<string>): (r: Result<Store, PresetError>)
    requires Wf(st)
    ensures r.Failure? <==> Validate(name, work, brk).Fail?
    ensures r.Failure? ==> r.error == Validate(name, work, brk).error
    ensures r.Success? ==> Wf(r.value) && |r.value.records| == |st.records|
    ensures r.Success? && (forall i :: 0 <= i < |st.records| ==> st.records[i].objectID != target.objectID) ==>
              r.value == st
    ensures r.Success? ==> forall i :: 0 <= i < |st.records| ==>
              var old_ := st.records[i];
              var new_ := r.value.records[i];
              if old_.objectID == target.objectID then
                && new_.name == Some(name) && new_.workDuration == TruncReal(work)
                && new_.breakDuration == TruncReal(brk) && new_.cycles == cycles
                && new_.accentColorHex == accent
                && new_.objectID == old_.objectID && new_.id == old_.id && new_.isDefault == old_.isDefault
                && new_.sortOrder == old_.sortOrder && new_.createdAt == old_.createdAt
              else new_ == old_
  {
    match Validate(name, work, brk)
    case Fail(e) => Failure(e)
    case Pass =>
      match IndexOfObject(st.records, target.objectID)
      case None => Success(st)
      case Some(i) => Success(Rewrite(st, i, name, work, brk, cycles, accent))
  }

  /** The store after the record at `i`, and only it, takes the edited
      fields. */
  function Rewrite(st: Store, i: nat, name: string, work: real, brk: real,
                   cycles: int, accent: Option<string>): (r: Store)
    requires Wf(st) && i < |st.records|
    ensures Wf(r) && |r.records| == |st.records|
    ensures forall j :: 0 <= j < |st.records| ==>
              var old_ := st.records[j];
              var new_ := r.records[j];
              if old_.objectID == st.records[i].objectID then
                && new_.name == Some(name) && new_.workDuration == TruncReal(work)
                && new_.breakDuration == TruncReal(brk) && new_.cycles == cycles
                && new_.accentColorHex == accent
                && new_.objectID == old_.objectID && new_.id == old_.id && new_.isDefault == old_.isDefault
                && new_.sortOrder == old_.sortOrder && new_.createdAt == old_.createdAt
              else new_ == old_
  {
    var rec := st.records[i].(name := Some(name), workDuration := TruncReal(work),
                               breakDuration := TruncReal(brk), cycles := cycles,
                               accentColorHex := accent);
    ReplaceRecord(st, i, rec);
    Store(st.records[i := rec], Load(st.records[i := rec]), st.nextObject)
  }

  /** Replacing a record by one with the same object identifier keeps the
      store consistent, and no other record carries that identifier. */
  lemma ReplaceRecord(st: Store, i: nat, rec: PresetRecord)
    requires Wf(st) && i < |st.records| && rec.objectID == st.records[i].objectID
    ensures var records := st.records[i := rec];
            Wf(Store(records, Load(records), st.nextObject))
    ensures forall j :: 0 <= j < |st.records| && j != i ==> st.records[j].objectID != rec.objectID
  {
    var records := st.records[i := rec];
    forall j | 0 <= j < |records|
      ensures records[j].objectID == st.records[j].objectID < st.nextObject
    {
    }
    forall a, b | 0 <= a < b < |records|
      ensures records[a].objectID != records[b].objectID
    {
      assert records[a].objectID == st.records[a].objectID;
      assert records[b].objectID == st.records[b].objectID;
    }
    forall j | 0 <= j < |st.records| && j != i ensures st.records[j].objectID != rec.objectID {
      if j < i {
        assert st.records[j].objectID != st.records[i].objectID;
      } else {
        assert st.records[i].objectID != st.records[j].objectID;
      }
    }
  }

  /** `viewContext.existingObject(with:)`: the position of the object. */
  function IndexOfObject(rs: seq<PresetRecord>, objectID: nat): (r: Option<nat>)
    ensures r.None? <==> forall i :: 0 <= i < |rs| ==> rs[i].objectID != objectID
    ensures r.Some? ==> r.value < |rs| && rs[r.value].objectID == objectID
  {
    if rs == [] then None
    else if rs[0].objectID == objectID then Some(0)
    else
      match IndexOfObject(rs[1..], objectID)
      case None => None
      case Some(i) => Some(i + 1)
  }

  // ---------------------------------------------------------------------
  // Seeding and opening the store
  // ---------------------------------------------------------------------

  /** The three built-in presets: name, work and break seconds, cycles and
      accent colour. */
  datatype DefaultPreset = DefaultPreset(name: string, work: int, brk: int, cycles: int, accent: string)

  const Defaults: seq<DefaultPreset> := [
    DefaultPreset("Pomodoro 25/5", 25 * 60, 5 * 60, 4, "#FF5E57"),
    DefaultPreset("Short Sprint 15/3", 15 * 60, 3 * 60, 5, "#4BCFFA"),
    DefaultPreset("Deep Work 50/10", 50 * 60, 10 * 60, 2, "#0BE881")
  ]

  function DefaultRecord(index: nat, objectID: nat, uuid: nat, now: int): PresetRecord
    requires index < |Defaults|
  {
    var d := Defaults[index];
    PresetRecord(objectID, Some(uuid), Some(d.name), d.work, d.brk, d.cycles,
                 Some(d.accent), true, index, now)
  }

  /** The records `seedDefaultsIfNeeded()` inserts: the three defaults,
      marked as defaults, at sort orders 0, 1 and 2. */
  function DefaultRecords(nextObject: nat, uuids: seq<nat>, now: int): (rs: seq<PresetRecord>)
    requires |uuids| == |Defaults|
    ensures |rs| == 3
    ensures forall i :: 0 <= i < 3 ==>
              && rs[i].sortOrder == i && rs[i].isDefault && rs[i].id == Some(uuids[i])
              && rs[i].name == Some(Defaults[i].name) && rs[i].objectID == nextObject + i
              && rs[i].workDuration == Defaults[i].work && rs[i].breakDuration == Defaults[i].brk
  {
    [DefaultRecord(0, nextObject, uuids[0], now),
     DefaultRecord(1, nextObject + 1, uuids[1], now),
     DefaultRecord(2, nextObject + 2, uuids[2], now)]
  }

  /** `PresetStore.init`: a store with no records at all is seeded with the
      defaults, one with any record is left as it is; then it loads.  A
      fresh store lists the three defaults in their sort order. */
  function Open(records: seq<PresetRecord>, nextObject: nat, uuids: seq<nat>, now: int): (st: Store)
    requires |uuids| == |Defaults|
    requires forall i :: 0 <= i < |records| ==> records[i].objectID < nextObject
    requires forall i, j :: 0 <= i < j < |records| ==> records[i].objectID != records[j].objectID
    ensures Wf(st)
    ensures records != [] ==> st.records == records && st.nextObject == nextObject
    ensures records == [] ==>
              |st.presets| == 3
              && forall i :: 0 <= i < 3 ==>
                   st.presets[i].sortOrder == i && st.presets[i].isDefault
                   && st.presets[i].name == Defaults[i].name && st.presets[i].id == uuids[i]
  {
    if records != [] then Store(records, Load(records), nextObject)
    else
      var rs := DefaultRecords(nextObject, uuids, now);
      SeededLoad(rs, nextObject);
      Store(rs, Load(rs), nextObject + 3)
  }

  lemma SeededLoad(rs: seq<PresetRecord>, nextObject: nat)
    requires |rs| == 3
    requires forall i :: 0 <= i < 3 ==>
               rs[i].sortOrder == i && rs[i].id.Some? && rs[i].name.Some? && rs[i].objectID == nextObject + i
    ensures |Load(rs)| == 3 && forall i :: 0 <= i < 3 ==> Load(rs)[i] == ViewOf(rs[i]).value
    ensures Wf(Store(rs, Load(rs), nextObject + 3))
  {
    assert Wf(Store(rs, Load(rs), nextObject + 3));
    assert FetchSorted(rs);
    SortedIsIdentity(rs);
    CompactAllValid(rs);
  }

  /** When every record has an id and a name, loading drops none of them. */
  lemma {:induction false} CompactAllValid(rs: seq<PresetRecord>)
    requires forall i :: 0 <= i < |rs| ==> ViewOf(rs[i]).Some?
    ensures |Compact(rs)| == |rs| && forall i :: 0 <= i < |rs| ==> Compact(rs)[i] == ViewOf(rs[i]).value
  {
    if rs != [] {
      CompactAllValid(rs[1..]);
    }
  }

  /** A name built like the defaults' (an unpadded stem, a space, then
      work and break minutes around a slash) displays as its stem. */
  lemma DefaultTitle(stem: string, work: string, brk: string)
    requires |stem| > 0 && !IsWhitespace(stem[0]) && !IsWhitespace(stem[|stem| - 1])
    requires |work| > 0 && |brk| > 0 && AllDigits(work) && AllDigits(brk)
    ensures DisplayTitle(stem + " " + work + "/" + brk) == stem
  {
    assert stem + " " + work + "/" + brk == stem + [' '] + work + "/" + brk;
    DisplayTitleDropsHint(stem, ' ', work, brk);
    TrimUnpadded(stem);
  }
}
