/**
 * Model of the decision and formatting logic of `WC_Remote_Logger`
 * (plugins/woocommerce/includes/class-wc-remote-logger.php): the path
 * scrubber `sanitize`, the sliding-window throttle kept in a transient, the
 * chain of conditions that allows remote logging, the assembly of the log
 * entry by `get_formatted_log`, and the control flow of `log`.
 *
 * Options, transients, the clock, the plugin API, `version_compare`, the
 * message filter and the HTTP post are inputs or ghost logs here.
 */
module RemoteLogging {
  import opened Strings

  datatype Option<T> = Some(value: T) | None

  datatype Result<T> = Ok(value: T) | Err(message: string)

  const ThrottleLimit: nat := 10       // at most this many posts inside one interval
  const ThrottleInterval: int := 300   // seconds
  const VariantAssignmentLimit: int := 12

  // ---------------------------------------------------------------------
  // sanitize: preg_replace('/\/.*(\/woocommerce.*|\/wp-.*)/i', '**$1', $content)
  // ---------------------------------------------------------------------

  /** `/wp-` or `/woocommerce` starts at `p`, letters compared without regard to ASCII case. */
  predicate MarkerAt(s: string, p: nat)
  {
    && p + 4 <= |s| && s[p] == '/' && LowerAscii(s[p + 1]) == 'w'
    && ((LowerAscii(s[p + 2]) == 'p' && s[p + 3] == '-')
        || (&& p + 12 <= |s|
            && LowerAscii(s[p + 2]) == 'o' && LowerAscii(s[p + 3]) == 'o' && LowerAscii(s[p + 4]) == 'c'
            && LowerAscii(s[p + 5]) == 'o' && LowerAscii(s[p + 6]) == 'm' && LowerAscii(s[p + 7]) == 'm'
            && LowerAscii(s[p + 8]) == 'e' && LowerAscii(s[p + 9]) == 'r' && LowerAscii(s[p + 10]) == 'c'
            && LowerAscii(s[p + 11]) == 'e'))
  }

  /** The largest `p` in `[lo, hi)` where a marker starts, `None` when there is none. */
  function LastMarker(s: string, lo: nat, hi: nat): (r: Option<nat>)
    requires hi <= |s|
    ensures r.Some? ==> lo <= r.value < hi
    decreases hi
  {
    if hi <= lo then None
    else if MarkerAt(s, hi - 1) then Some(hi - 1)
    else LastMarker(s, lo, hi - 1)
  }

  /** `LastMarker` finds a marker with none after it in the range, or reports that the range has none. */
  lemma {:induction false} LastMarkerSpec(s: string, lo: nat, hi: nat)
    requires hi <= |s|
    ensures var r := LastMarker(s, lo, hi);
            && (r.Some? ==> MarkerAt(s, r.value) && forall q | r.value < q < hi :: !MarkerAt(s, q))
            && (r.None? ==> forall q | lo <= q < hi :: !MarkerAt(s, q))
    decreases hi
  {
    if lo < hi && !MarkerAt(s, hi - 1) {
      LastMarkerSpec(s, lo, hi - 1);
    }
  }

  /**
   * The replacement on one line. The match begins at the first `/`; the
   * greedy `.*` makes the group begin at the last marker after it, and both
   * run to the end of the line.
   */
  function SanitizeLine(s: string): string
  {
    var i := FirstIndexOf(s, '/');
    if i == |s| then s
    else match LastMarker(s, i + 1, |s|)
      case None => s
      case Some(p) => s[..i] + "**" + s[p..]
  }

  /** `.` does not match a newline, so the pattern applies to each line on its own. */
  function Sanitize(s: string): string
    decreases |s|
  {
    var n := FirstIndexOf(s, '\n');
    if n == |s| then SanitizeLine(s) else SanitizeLine(s[..n]) + "\n" + Sanitize(s[n + 1..])
  }

  /**
   * The pattern matches the newline-free `s` from the slash at `a`, with its
   * group starting at the marker at `p`; match and group run to the end.
   */
  predicate IsMatch(s: string, a: nat, p: nat)
  {
    a < p < |s| && s[a] == '/' && MarkerAt(s, p)
  }

  /** The leftmost match starts at the first slash. */
  lemma LeftmostMatchStart(s: string, a: nat, p: nat)
    requires IsMatch(s, a, p)
    requires forall a': nat, p': nat | a' < a :: !IsMatch(s, a', p')
    ensures FirstIndexOf(s, '/') == a
  {
    FirstIndexOfSpec(s, '/');
    var i := FirstIndexOf(s, '/');
    if i < a {
      assert IsMatch(s, i, p);
    }
  }

  /** The greedy `.*` leaves the group at the last marker. */
  lemma GreedyGroupStart(s: string, a: nat, p: nat)
    requires IsMatch(s, a, p)
    requires forall p': nat | p < p' :: !IsMatch(s, a, p')
    ensures LastMarker(s, a + 1, |s|) == Some(p)
  {
    LastMarkerSpec(s, a + 1, |s|);
    var r := LastMarker(s, a + 1, |s|);
    assert r.Some?;
    assert !(r.value > p && IsMatch(s, a, r.value));
  }

  /**
   * Regular-expression semantics: for the leftmost match, extended as far as
   * the greedy `.*` allows, the line becomes the text before the match, `**`
   * and the group.
   */
  lemma SanitizeLineMatch(s: string, a: nat, p: nat)
    requires IsMatch(s, a, p)
    requires forall a': nat, p': nat | a' < a :: !IsMatch(s, a', p')
    requires forall p': nat | p < p' :: !IsMatch(s, a, p')
    ensures SanitizeLine(s) == s[..a] + "**" + s[p..]
  {
    LeftmostMatchStart(s, a, p);
    GreedyGroupStart(s, a, p);
  }

  /** Where the pattern does not match anywhere, the line is unchanged. */
  lemma SanitizeLineNoMatch(s: string)
    requires forall a: nat, p: nat :: !IsMatch(s, a, p)
    ensures SanitizeLine(s) == s
  {
    var i := FirstIndexOf(s, '/');
    if i < |s| {
      var r := LastMarker(s, i + 1, |s|);
      if r.Some? {
        LastMarkerSpec(s, i + 1, |s|);
        assert IsMatch(s, i, r.value);
      }
    }
  }

  /** The line changes exactly when the pattern matches somewhere in it. */
  lemma SanitizeLineChanges(s: string)
    ensures SanitizeLine(s) != s <==> exists a: nat, p: nat :: IsMatch(s, a, p)
  {
    FirstIndexOfSpec(s, '/');
    var i := FirstIndexOf(s, '/');
    if exists a: nat, p: nat :: IsMatch(s, a, p) {
      var a: nat, p: nat :| IsMatch(s, a, p);
      assert i <= a;
      var r := LastMarker(s, i + 1, |s|);
      LastMarkerSpec(s, i + 1, |s|);
      assert r.Some?;
      var out := s[..i] + "**" + s[r.value..];
      if |out| == |s| {
        assert out[i] == '*' && s[i] == '/';
      }
    } else {
      SanitizeLineNoMatch(s);
    }
  }

  /** A scrubbed line has nothing left to scrub. */
  lemma SanitizeLineIdempotent(s: string)
    ensures SanitizeLine(SanitizeLine(s)) == SanitizeLine(s)
  {
    var i := FirstIndexOf(s, '/');
    if i < |s| && LastMarker(s, i + 1, |s|).Some? {
      var p := LastMarker(s, i + 1, |s|).value;
      LastMarkerSpec(s, i + 1, |s|);
      var r := s[..i] + "**" + s[p..];
      ScrubbedFirstSlash(s, i, p);
      ScrubbedNoMarker(s, i, p);
      LastMarkerIs(r, i + 3, |r|, None);
    }
  }

  /** After the replacement the first slash is the one that starts the group. */
  lemma ScrubbedFirstSlash(s: string, i: nat, p: nat)
    requires i < p < |s| && FirstIndexOf(s, '/') == i && s[p] == '/'
    ensures FirstIndexOf(s[..i] + "**" + s[p..], '/') == i + 2
  {
    var r := s[..i] + "**" + s[p..];
    FirstIndexOfSpec(s, '/');
    assert forall j | 0 <= j < i :: r[j] == s[j];
    assert r[i] == '*' && r[i + 1] == '*' && r[i + 2] == '/';
    FirstIndexOfIs(r, '/', i + 2);
  }

  /** After the replacement no marker follows the group's own. */
  lemma ScrubbedNoMarker(s: string, i: nat, p: nat)
    requires i < p < |s|
    requires forall q | p < q < |s| :: !MarkerAt(s, q)
    ensures var r := s[..i] + "**" + s[p..];
            forall q | i + 3 <= q < |r| :: !MarkerAt(r, q)
  {
    var front := s[..i] + "**";
    var r := front + s[p..];
    forall q | i + 3 <= q < |r|
      ensures !MarkerAt(r, q)
    {
      var k: nat := q - (i + 2);
      MarkerShift(front, s[p..], k);
      MarkerShift(s[..p], s[p..], k);
      assert s[..p] + s[p..] == s;
    }
  }

  /** Scrubbing a line never adds a line break. */
  lemma SanitizeLineNoNewline(s: string)
    requires '\n' !in s
    ensures '\n' !in SanitizeLine(s)
  {
    var i := FirstIndexOf(s, '/');
    if i < |s| && LastMarker(s, i + 1, |s|).Some? {
      var p := LastMarker(s, i + 1, |s|).value;
      assert s[..i] + "**" + s[p..] == s[..i] + "**" + s[p..];
      assert forall c | c in s[p..] :: c in s;
      assert forall c | c in s[..i] :: c in s;
    }
  }

  /** A string without line breaks is scrubbed as one line. */
  lemma SanitizeOneLine(s: string)
    requires '\n' !in s
    ensures Sanitize(s) == SanitizeLine(s)
  {
    assert FirstIndexOf(s, '\n') == |s|;
  }

  /** Scrubbing a scrubbed text changes nothing, line by line. */
  lemma {:induction false} SanitizeIdempotent(s: string)
    ensures Sanitize(Sanitize(s)) == Sanitize(s)
    decreases |s|
  {
    var n := FirstIndexOf(s, '\n');
    FirstIndexOfSpec(s, '\n');
    var line := if n == |s| then s else s[..n];
    assert '\n' !in line;
    SanitizeLineNoNewline(line);
    var l := SanitizeLine(line);
    SanitizeLineIdempotent(line);
    if n == |s| {
      SanitizeOneLine(l);
    } else {
      var rest := Sanitize(s[n + 1..]);
      SanitizeIdempotent(s[n + 1..]);
      var t := l + "\n" + rest;
      assert FirstIndexOf(t, '\n') == |l| by {
        assert t[|l|] == '\n';
        assert forall j | 0 <= j < |l| :: t[j] == l[j];
        FirstIndexOfIs(t, '\n', |l|);
      }
      assert t[..|l|] == l;
      assert t[|l| + 1..] == rest;
    }
  }

  /** The first occurrence is pinned down by its three properties. */
  lemma FirstIndexOfIs(s: string, c: char, k: nat)
    requires k <= |s| && (k < |s| ==> s[k] == c) && forall j | 0 <= j < k :: s[j] != c
    ensures FirstIndexOf(s, c) == k
  {
    FirstIndexOfSpec(s, c);
  }

  /** So is the last marker. */
  lemma LastMarkerIs(s: string, lo: nat, hi: nat, r: Option<nat>)
    requires hi <= |s|
    requires r.Some? ==> lo <= r.value < hi && MarkerAt(s, r.value) && forall q | r.value < q < hi :: !MarkerAt(s, q)
    requires r.None? ==> forall q | lo <= q < hi :: !MarkerAt(s, q)
    ensures LastMarker(s, lo, hi) == r
  {
    LastMarkerSpec(s, lo, hi);
  }

  /** Putting text in front moves every marker by its length. */
  lemma MarkerShift(x: string, y: string, q: nat)
    requires q <= |y|
    ensures MarkerAt(x + y, |x| + q) == MarkerAt(y, q)
  {
    assert forall k | q <= k < |y| :: (x + y)[|x| + k] == y[k];
  }

  /** Text without a slash in front moves the first slash by its length. */
  lemma FirstSlashShift(x: string, y: string)
    requires '/' !in x
    ensures FirstIndexOf(x + y, '/') == |x| + FirstIndexOf(y, '/')
  {
    var i := FirstIndexOf(y, '/');
    FirstIndexOfSpec(y, '/');
    assert forall j | 0 <= j < |x| :: (x + y)[j] == x[j];
    assert forall j | |x| <= j < |x| + i :: (x + y)[j] == y[j - |x|];
    FirstIndexOfIs(x + y, '/', |x| + i);
  }

  /** Text before the first slash is never scrubbed: it stays in front of the scrubbed rest. */
  lemma SanitizeLineKeepsPlainPrefix(x: string, y: string)
    requires '/' !in x
    ensures SanitizeLine(x + y) == x + SanitizeLine(y)
  {
    var i := FirstIndexOf(y, '/');
    FirstSlashShift(x, y);
    if i < |y| {
      LastMarkerShift(x, y, i + 1, |y|);
      match LastMarker(y, i + 1, |y|)
      case Some(p) => PlainPrefixWithGroup(x, y, i, p);
      case None => PlainPrefixNoGroup(x, y, i);
    } else {
      PlainPrefixNoSlash(x, y);
    }
  }

  /** The case of `SanitizeLineKeepsPlainPrefix` where `y` has no slash. */
  lemma PlainPrefixNoSlash(x: string, y: string)
    requires FirstIndexOf(y, '/') == |y| && FirstIndexOf(x + y, '/') == |x + y|
    ensures SanitizeLine(x + y) == x + SanitizeLine(y)
  {
  }

  /** The case of `SanitizeLineKeepsPlainPrefix` where `y` has a slash but no group after it. */
  lemma PlainPrefixNoGroup(x: string, y: string, i: nat)
    requires i < |y| && FirstIndexOf(y, '/') == i && FirstIndexOf(x + y, '/') == |x| + i
    requires LastMarker(y, i + 1, |y|) == None
    requires LastMarker(x + y, |x| + i + 1, |x + y|) == None
    ensures SanitizeLine(x + y) == x + SanitizeLine(y)
  {
  }

  /** The case of `SanitizeLineKeepsPlainPrefix` where `y` has a group at `p`. */
  lemma PlainPrefixWithGroup(x: string, y: string, i: nat, p: nat)
    requires i < |y| && FirstIndexOf(y, '/') == i && FirstIndexOf(x + y, '/') == |x| + i
    requires LastMarker(y, i + 1, |y|) == Some(p)
    requires LastMarker(x + y, |x| + i + 1, |x + y|) == Some(|x| + p)
    ensures SanitizeLine(x + y) == x + SanitizeLine(y)
  {
    var s := x + y;
    assert SanitizeLine(y) == y[..i] + "**" + y[p..];
    assert SanitizeLine(s) == s[..|x| + i] + "**" + s[|x| + p..];
    ConcatAfterPrefix(x, y, i, p);
  }

  /** A position moved `k` further on. */
  function ShiftBy(r: Option<nat>, k: nat): Option<nat>
  {
    match r
    case None => None
    case Some(v) => Some(v + k)
  }

  /** Putting text in front of a line moves its last marker in a range by the text's length. */
  lemma {:induction false} LastMarkerShift(x: string, y: string, lo: nat, hi: nat)
    requires hi <= |y|
    ensures LastMarker(x + y, |x| + lo, |x| + hi) == ShiftBy(LastMarker(y, lo, hi), |x|)
    decreases hi
  {
    var s := x + y;
    var k := |x|;
    if lo < hi {
      var top: nat := hi - 1;
      MarkerShift(x, y, top);
      assert k + hi - 1 == k + top;
      if !MarkerAt(y, top) {
        LastMarkerShift(x, y, lo, top);
        assert LastMarker(s, k + lo, k + hi) == LastMarker(s, k + lo, k + top);
        assert LastMarker(y, lo, hi) == LastMarker(y, lo, top);
      }
    }
  }

  /** The replacement computed on `x + y` is `x` followed by the one computed on `y`. */
  lemma ConcatAfterPrefix(x: string, y: string, i: nat, p: nat)
    requires i <= p <= |y|
    ensures (x + y)[..|x| + i] + "**" + (x + y)[|x| + p..] == x + (y[..i] + "**" + y[p..])
  {
    assert (x + y)[..|x| + i] == x + y[..i];
    assert (x + y)[|x| + p..] == y[p..];
  }

  /**
   * A line that starts with a slash and whose last marker starts the text
   * `y` at its end becomes `**` followed by `y`.
   */
  lemma SanitizeLineGroupInTail(x: string, y: string)
    requires |x| > 0 && x[0] == '/'
    requires MarkerAt(y, 0) && forall q | 0 < q < |y| :: !MarkerAt(y, q)
    ensures SanitizeLine(x + y) == "**" + y
  {
    var s := x + y;
    FirstIndexOfIs(s, '/', 0);
    LastMarkerOfTail(x, y);
    assert s[|x|..] == y;
  }

  /** The last marker of `x + y` after its first character is the one starting `y`. */
  lemma LastMarkerOfTail(x: string, y: string)
    requires |x| > 0
    requires MarkerAt(y, 0) && forall q | 0 < q < |y| :: !MarkerAt(y, q)
    ensures LastMarker(x + y, 1, |x + y|) == Some(|x|)
  {
    var s := x + y;
    MarkerShift(x, y, 0);
    forall q | |x| < q < |s|
      ensures !MarkerAt(s, q)
    {
      MarkerShift(x, y, q - |x|);
    }
    LastMarkerIs(s, 1, |s|, Some(|x|));
  }

  /** Joining two texts without line breaks gives none. */
  lemma NoNewlineConcat(x: string, y: string)
    requires '\n' !in x && '\n' !in y
    ensures '\n' !in x + y
  {
    assert forall c | c in x + y :: c in x || c in y;
  }

  /** No position without a slash starts a marker. */
  lemma NoMarkerWithoutSlash(s: string, q: nat)
    requires q < |s| && s[q] != '/'
    ensures !MarkerAt(s, q)
  {
  }

  /** `/woocommerce/file.php` starts with a marker and holds no other. */
  lemma PluginTail(y: string)
    requires y == "/woocommerce/file.php"
    ensures MarkerAt(y, 0) && '\n' !in y
    ensures forall q | 0 < q < |y| :: !MarkerAt(y, q)
  {
    TailStart(y, "/woocommerce");
    OnlyMarkerAtStart(y, 12);
  }

  /** `/wp-content/file.php` starts with a marker and holds no other. */
  lemma ContentTail(y: string)
    requires y == "/wp-content/file.php"
    ensures MarkerAt(y, 0) && '\n' !in y
    ensures forall q | 0 < q < |y| :: !MarkerAt(y, q)
  {
    TailStart(y, "/wp-");
    OnlyMarkerAtStart(y, 11);
  }

  /** A tail beginning with one of the two markers has a marker at its start. */
  lemma TailStart(y: string, m: string)
    requires m == "/woocommerce" || m == "/wp-"
    requires m <= y
    ensures MarkerAt(y, 0)
  {
    assert y[0..] == y;
    assert forall j | 0 <= j < |m| :: y[j] == m[j];
  }

  /**
   * A tail whose only slashes are at its start and at `k`,
   * where the slash is followed by `f`, has no marker after its start.
   */
  lemma OnlyMarkerAtStart(y: string, k: nat)
    requires k + 1 < |y| && y[k] == '/' && y[k + 1] == 'f'
    requires forall j | 0 < j < |y| && j != k :: y[j] != '/'
    ensures forall q | 0 < q < |y| :: !MarkerAt(y, q)
  {
    forall q | 0 < q < |y|
      ensures !MarkerAt(y, q)
    {
      if q != k {
        NoMarkerWithoutSlash(y, q);
      } else {
        assert y[k..][1] == 'f';
      }
    }
  }

  /** A one-line path whose only marker is at the start of its tail keeps just that tail. */
  lemma SanitizeGroupInTail(head: string, tail: string)
    requires |head| > 0 && head[0] == '/' && '\n' !in head && '\n' !in tail
    requires MarkerAt(tail, 0) && forall q | 0 < q < |tail| :: !MarkerAt(tail, q)
    ensures Sanitize(head + tail) == "**" + tail
  {
    SanitizeLineGroupInTail(head, tail);
    NoNewlineConcat(head, tail);
    SanitizeOneLine(head + tail);
  }

  /**
   * The path of the comment on `sanitize` keeps its plugin-relative part,
   * whatever directories lead to it (there `/home/user/path/wp-content/plugins`).
   */
  lemma SanitizePluginPath(head: string, tail: string)
    requires |head| > 0 && head[0] == '/' && '\n' !in head
    requires tail == "/woocommerce/file.php"
    ensures Sanitize(head + tail) == "**" + tail
  {
    PluginTail(tail);
    SanitizeGroupInTail(head, tail);
  }

  /** A path under `wp-content` outside the plugin keeps `/wp-content` onwards (there after `/home/user/path`). */
  lemma SanitizeContentPath(head: string, tail: string)
    requires |head| > 0 && head[0] == '/' && '\n' !in head
    requires tail == "/wp-content/file.php"
    ensures Sanitize(head + tail) == "**" + tail
  {
    ContentTail(tail);
    SanitizeGroupInTail(head, tail);
  }

  /** In an error message the text before the path stays, and the path is scrubbed as on its own. */
  lemma SanitizeMessage(text: string, head: string, tail: string)
    requires text == "Fatal error occurred at line 123 in "
    requires |head| > 0 && head[0] == '/' && '\n' !in head
    requires tail == "/wp-content/file.php"
    ensures Sanitize(text + (head + tail)) == text + ("**" + tail)
  {
    var path := head + tail;
    SanitizeOnePathLine(head, tail);
    PlainText(text);
    SanitizeLineKeepsPlainPrefix(text, path);
    NoNewlineConcat(text, path);
    SanitizeOneLine(text + path);
  }

  /** The path of the error message on its own line. */
  lemma SanitizeOnePathLine(head: string, tail: string)
    requires |head| > 0 && head[0] == '/' && '\n' !in head
    requires tail == "/wp-content/file.php"
    ensures SanitizeLine(head + tail) == "**" + tail && '\n' !in head + tail
  {
    ContentTail(tail);
    SanitizeLineGroupInTail(head, tail);
    NoNewlineConcat(head, tail);
  }

  /** The message text in front of the path has neither a slash nor a line break. */
  lemma PlainText(text: string)
    requires text == "Fatal error occurred at line 123 in "
    ensures '/' !in text && '\n' !in text
  {
  }

  // ---------------------------------------------------------------------
  // The throttle window
  // ---------------------------------------------------------------------

  /** `$current_time - $timestamp <= THROTTLE_INTERVAL`. */
  predicate InWindow(now: int, t: int)
  {
    now - t <= ThrottleInterval
  }

  /** The `array_filter` of the stored timestamps: those still in the window, in stored order. */
  function Recent(ts: seq<int>, now: int): (r: seq<int>)
    ensures |r| <= |ts|
    ensures forall j | 0 <= j < |r| :: InWindow(now, r[j])
    decreases |ts|
  {
    if ts == [] then []
    else Recent(ts[..|ts| - 1], now) + (if InWindow(now, ts[|ts| - 1]) then [ts[|ts| - 1]] else [])
  }

  /** Positions of the stored list whose timestamp is in the window. */
  ghost function WindowPositions(ts: seq<int>, now: int): set<nat>
  {
    set j: nat | j < |ts| && InWindow(now, ts[j])
  }

  /** The filter keeps exactly the in-window timestamps: as many as there are such positions. */
  lemma {:induction false} RecentCount(ts: seq<int>, now: int)
    ensures |Recent(ts, now)| == |WindowPositions(ts, now)|
    decreases |ts|
  {
    if ts != [] {
      var n := |ts| - 1;
      RecentCount(ts[..n], now);
      var before := WindowPositions(ts[..n], now);
      if InWindow(now, ts[n]) {
        assert WindowPositions(ts, now) == before + {n};
      } else {
        assert WindowPositions(ts, now) == before;
      }
    }
  }

  /** The filter keeps each value as often as it is stored, when it is in the window, and drops it otherwise. */
  lemma {:induction false} RecentContents(ts: seq<int>, now: int)
    ensures forall x :: multiset(Recent(ts, now))[x] == if InWindow(now, x) then multiset(ts)[x] else 0
    decreases |ts|
  {
    if ts != [] {
      var n := |ts| - 1;
      RecentContents(ts[..n], now);
      assert ts == ts[..n] + [ts[n]];
    }
  }

  /** Filtering works piecewise: it keeps the relative order of the stored timestamps. */
  lemma {:induction false} RecentAppend(a: seq<int>, b: seq<int>, now: int)
    ensures Recent(a + b, now) == Recent(a, now) + Recent(b, now)
    decreases |b|
  {
    if b == [] {
      assert a + b == a;
    } else {
      var n := |b| - 1;
      RecentAppend(a, b[..n], now);
      assert (a + b)[..|a + b| - 1] == a + b[..n];
    }
  }

  /** A list wholly inside the window is kept as it is. */
  lemma {:induction false} RecentAllInWindow(ts: seq<int>, now: int)
    requires forall j | 0 <= j < |ts| :: InWindow(now, ts[j])
    ensures Recent(ts, now) == ts
    decreases |ts|
  {
    if ts != [] {
      RecentAllInWindow(ts[..|ts| - 1], now);
      assert ts[..|ts| - 1] + [ts[|ts| - 1]] == ts;
    }
  }

  /** Filtering at one time and then at a later one is filtering at the later one. */
  lemma {:induction false} RecentLater(ts: seq<int>, now: int, later: int)
    requires now <= later
    ensures Recent(Recent(ts, now), later) == Recent(ts, later)
    decreases |ts|
  {
    if ts != [] {
      var n := |ts| - 1;
      RecentLater(ts[..n], now, later);
      var tail := if InWindow(now, ts[n]) then [ts[n]] else [];
      RecentAppend(Recent(ts[..n], now), tail, now);
      RecentAppend(Recent(ts[..n], now), tail, later);
      if InWindow(now, ts[n]) {
        assert Recent(tail, later) == Recent([], later) + (if InWindow(later, ts[n]) then [ts[n]] else []);
      } else {
        assert !InWindow(later, ts[n]);
      }
    }
  }

  /** The throttle decision for a stored list at time `now`. */
  predicate Throttles(ts: seq<int>, now: int)
  {
    |Recent(ts, now)| >= ThrottleLimit
  }

  /** Throttled exactly when at least ten stored timestamps lie in the window. */
  lemma ThrottlesIff(ts: seq<int>, now: int)
    ensures Throttles(ts, now) <==> |WindowPositions(ts, now)| >= ThrottleLimit
  {
    RecentCount(ts, now);
  }

  /** A hundred posts in the last hundred seconds throttle. */
  lemma HundredRecentPostsThrottle(now: int)
    ensures Throttles(seq(100, i => now - i), now)
  {
    var ts := seq(100, i => now - i);
    RecentAllInWindow(ts, now);
  }

  // ---------------------------------------------------------------------
  // The gating chain
  // ---------------------------------------------------------------------

  /**
   * What `is_remote_logging_allowed` reads: the feature flag, the options
   * `woocommerce_allow_tracking` and `woocommerce_remote_variant_assignment`
   * (`None` when unset), the running version and the latest published
   * version (`None` when the plugin API gives none).
   */
  datatype Gate = Gate(featureEnabled: bool, allowTracking: Option<string>, variantAssignment: Option<int>,
                       wcVersion: string, latestVersion: Option<string>)

  /** `get_option($name, $default)`. */
  function OptionOr<T>(o: Option<T>, default: T): T
  {
    if o.Some? then o.value else default
  }

  /** `'yes' === get_option('woocommerce_allow_tracking', 'no')`. */
  predicate IsUserOptedIn(g: Gate)
  {
    OptionOr(g.allowTracking, "no") == "yes"
  }

  /** `get_option('woocommerce_remote_variant_assignment', 0) <= 12`. */
  function IsVariantAssignmentAllowed(g: Gate): (allowed: bool)
    ensures allowed <==> g.variantAssignment.None? || g.variantAssignment.value <= VariantAssignmentLimit
  {
    OptionOr(g.variantAssignment, 0) <= VariantAssignmentLimit
  }

  /** No latest version known means not the latest; otherwise `version_compare(current, latest, '>=')`. */
  predicate IsLatestVersion(g: Gate, atLeast: (string, string) -> bool)
  {
    g.latestVersion.Some? && atLeast(g.wcVersion, g.latestVersion.value)
  }

  /** The four checks in order, each returning false at once. */
  function IsRemoteLoggingAllowed(g: Gate, atLeast: (string, string) -> bool): (allowed: bool)
    ensures allowed <==> g.featureEnabled && IsUserOptedIn(g) && IsVariantAssignmentAllowed(g) && IsLatestVersion(g, atLeast)
  {
    if !g.featureEnabled then false
    else if !IsUserOptedIn(g) then false
    else if !IsVariantAssignmentAllowed(g) then false
    else if !IsLatestVersion(g, atLeast) then false
    else true
  }

  /** A store opted in with assignment 5, on the latest version, may log. */
  lemma AllowedWhenAllConditionsHold(atLeast: (string, string) -> bool)
    requires atLeast("9.2.0", "9.2.0")
    ensures IsRemoteLoggingAllowed(Gate(true, Some("yes"), Some(5), "9.2.0", Some("9.2.0")), atLeast)
  {
  }

  /** Every single failing condition forbids logging, whatever the others are. */
  lemma EachConditionIsNeeded(g: Gate, atLeast: (string, string) -> bool)
    ensures !g.featureEnabled ==> !IsRemoteLoggingAllowed(g, atLeast)
    ensures g.allowTracking == Some("no") || g.allowTracking.None? ==> !IsRemoteLoggingAllowed(g, atLeast)
    ensures g.variantAssignment == Some(15) ==> !IsRemoteLoggingAllowed(g, atLeast)
    ensures g.latestVersion.None? ==> !IsRemoteLoggingAllowed(g, atLeast)
  {
  }

  // ---------------------------------------------------------------------
  // get_formatted_log
  // ---------------------------------------------------------------------

  /** A PHP value as it can appear in the context; arrays with string keys are `Dict`. */
  datatype Value =
    | Null
    | Bool(b: bool)
    | Num(n: int)
    | Str(s: string)
    | List(items: seq<Value>)
    | Dict(entries: map<string, Value>)

  /** PHP's `empty()`. */
  predicate Empty(v: Value)
  {
    match v
    case Null => true
    case Bool(b) => !b
    case Num(n) => n == 0
    case Str(s) => s == "" || s == "0"
    case List(items) => items == []
    case Dict(entries) => entries == map[]
  }

  /** `! empty($context[$key])`, a missing key being empty. */
  predicate PresentAt(context: map<string, Value>, key: string)
  {
    key in context && !Empty(context[key])
  }

  /** PHP's conversion of a value to a string, as `preg_replace` applies it to its subject. */
  function PhpString(v: Value): string
  {
    match v
    case Null => ""
    case Bool(b) => if b then "1" else ""
    case Num(n) => IntToString(n)
    case Str(s) => s
    case List(_) => "Array"
    case Dict(_) => "Array"
  }

  /** `sanitize` on a subject that is not an array: its string form, scrubbed. */
  function ScrubScalar(v: Value): Value
  {
    Str(Sanitize(PhpString(v)))
  }

  /**
   * `sanitize` on any value: `preg_replace` scrubs every entry of an array
   * subject (a nested array entry becomes the string "Array"), and the string
   * form of any other subject.
   */
  function SanitizeValue(v: Value): Value
  {
    match v
    case List(items) => List(seq(|items|, j requires 0 <= j < |items| => ScrubScalar(items[j])))
    case Dict(entries) => Dict(map k | k in entries :: ScrubScalar(entries[k]))
    case _ => ScrubScalar(v)
  }

  /**
   * `sanitize_trace`: a string is scrubbed; an array is scrubbed element by
   * element with `sanitize` (its `json_encode` is not modelled); anything
   * else makes `array_map` raise a TypeError.
   */
  function SanitizeTrace(v: Value): (r: Result<Value>)
    ensures r.Ok? <==> v.Str? || v.List? || v.Dict?
  {
    match v
    case Str(s) => Ok(Str(Sanitize(s)))
    case List(items) => Ok(List(seq(|items|, j requires 0 <= j < |items| => SanitizeValue(items[j]))))
    case Dict(entries) => Ok(Dict(map k | k in entries :: SanitizeValue(entries[k])))
    case _ => Err("array_map(): Argument #2 ($array) must be of type array")
  }

  /** What the site contributes: host of `home_url()`, `WC()->version`, and `WC_Tracks` blog details when that class exists. */
  datatype Site = Site(host: Value, wcVersion: string, blogDetails: Option<map<string, Value>>)

  /** The array `get_formatted_log` returns. */
  datatype LogData = LogData(feature: string, severity: string, message: string, host: Value,
                             trace: Option<Value>, tags: Option<Value>, blogId: Option<Value>,
                             extra: map<string, Value>)

  /** `$blog_details['store_id'] ?? null`. */
  function StoreId(site: Site): Value
  {
    if site.blogDetails.Some? && "store_id" in site.blogDetails.value then site.blogDetails.value["store_id"] else Null
  }

  /** A positive numeric `blog_id` is copied into the entry. */
  function BlogId(site: Site): Option<Value>
  {
    if site.blogDetails.Some? && "blog_id" in site.blogDetails.value
       && site.blogDetails.value["blog_id"].Num? && site.blogDetails.value["blog_id"].n > 0
    then Some(site.blogDetails.value["blog_id"])
    else None
  }

  /** The defaults of `extra`: the running version and the store id. */
  function Defaults(site: Site): map<string, Value>
  {
    map["wc_version" := Str(site.wcVersion), "store_id" := StoreId(site)]
  }

  /** `$context['extra'] ?? array()` can be merged: missing, null or an array. */
  predicate ExtraMergeable(context: map<string, Value>)
  {
    "extra" !in context || context["extra"].Null? || context["extra"].Dict? || context["extra"].List?
  }

  /**
   * A list merged after string keys: `array_merge` renumbers its elements
   * 0, 1, 2, ... (PHP keys `"0"` and `0` are one key).
   */
  function Renumbered(items: seq<Value>): map<string, Value>
  {
    NatToStringIsKey();
    map j | 0 <= j < |items| :: NatToString(j) := items[j]
  }

  /** The caller's own `extra` attributes. */
  function GivenExtra(context: map<string, Value>): map<string, Value>
  {
    if "extra" !in context then map[]
    else match context["extra"]
      case Dict(entries) => entries
      case List(items) => Renumbered(items)
      case _ => map[]
  }

  /** A non-empty `error` array with a non-empty `file` gets that file scrubbed. */
  predicate ScrubsErrorFile(context: map<string, Value>)
  {
    "error" in context && context["error"].Dict? && context["error"].entries != map[]
    && "file" in context["error"].entries && !Empty(context["error"].entries["file"])
  }

  /** The `error` array with its `file` scrubbed. */
  function ScrubbedError(error: Value): Value
    requires error.Dict? && "file" in error.entries
  {
    Dict(error.entries["file" := SanitizeValue(error.entries["file"])])
  }

  /** A context key that ends up among the extra attributes. */
  predicate Remains(context: map<string, Value>, k: string)
  {
    k in context && k != "extra"
    && !(k == "backtrace" && PresentAt(context, "backtrace"))
    && !(k == "tags" && PresentAt(context, "tags"))
  }

  /** The context left once the moved keys and `extra` are gone, with the error file scrubbed. */
  function Remaining(context: map<string, Value>): map<string, Value>
  {
    map k | k in context && Remains(context, k) ::
      if k == "error" && ScrubsErrorFile(context) then ScrubbedError(context["error"]) else context[k]
  }

  /** Each key from the highest layer that has it. */
  function Overlay(base: map<string, Value>, over: map<string, Value>, top: map<string, Value>): map<string, Value>
  {
    map k | k in base.Keys + over.Keys + top.Keys ::
      if k in top then top[k] else if k in over then over[k] else base[k]
  }

  /** `extra`: the remaining context over the caller's `extra` over the defaults. */
  function FormattedExtra(context: map<string, Value>, site: Site): map<string, Value>
  {
    Overlay(Defaults(site), GivenExtra(context), Remaining(context))
  }

  /** The `trace` field: absent for an empty backtrace, else the scrubbed one (or the TypeError). */
  function TraceOf(context: map<string, Value>): Result<Option<Value>>
  {
    if !PresentAt(context, "backtrace") then Ok(None)
    else match SanitizeTrace(context["backtrace"])
      case Ok(v) => Ok(Some(v))
      case Err(e) => Err(e)
  }

  /** The `tags` field: copied when non-empty. */
  function TagsOf(context: map<string, Value>): Option<Value>
  {
    if PresentAt(context, "tags") then Some(context["tags"]) else None
  }

  /** The entry `get_formatted_log` returns, or the error that escapes it. */
  function FormattedLog(level: string, message: string, context: map<string, Value>, site: Site): Result<LogData>
  {
    var trace := TraceOf(context);
    if trace.Err? then Err(trace.message)
    else if !ExtraMergeable(context) then Err("array_merge(): Argument #2 must be of type array")
    else Ok(LogData("woocommerce_core", level, Sanitize(message), site.host,
                    trace.value, TagsOf(context), BlogId(site), FormattedExtra(context, site)))
  }

  /**
   * Formatting fails only on the two TypeErrors; otherwise the entry has the
   * fixed feature, the level, the scrubbed message and the host.
   */
  lemma FormattedLogFields(level: string, message: string, context: map<string, Value>, site: Site)
    ensures FormattedLog(level, message, context, site).Ok?
            <==> ExtraMergeable(context)
                 && (PresentAt(context, "backtrace") ==> context["backtrace"].Str? || context["backtrace"].List? || context["backtrace"].Dict?)
    ensures var r := FormattedLog(level, message, context, site);
            r.Ok? ==> r.value.feature == "woocommerce_core" && r.value.severity == level
                      && r.value.message == Sanitize(message) && r.value.host == site.host
                      && r.value.extra == FormattedExtra(context, site)
  {
  }

  /** Both defaults are always there, so `extra` always carries the version and the store id. */
  lemma ExtraHasDefaults(context: map<string, Value>, site: Site)
    ensures "wc_version" in FormattedExtra(context, site) && "store_id" in FormattedExtra(context, site)
  {
  }

  /** The precedence of `extra`: remaining context over the caller's `extra` over the defaults. */
  lemma ExtraPrecedence(context: map<string, Value>, site: Site, k: string)
    ensures var extra := FormattedExtra(context, site);
            && (k in extra <==> k in Defaults(site) || k in GivenExtra(context) || Remains(context, k))
            && (Remains(context, k) && k != "error" ==> extra[k] == context[k])
            && (!Remains(context, k) && k in GivenExtra(context) ==> extra[k] == GivenExtra(context)[k])
            && (!Remains(context, k) && k !in GivenExtra(context) && k == "wc_version" ==> extra[k] == Str(site.wcVersion))
  {
  }

  /**
   * The context's own `extra` never reaches `extra` except through the
   * caller's `extra` array, and neither does a moved `backtrace` or `tags`.
   */
  lemma MovedKeysLeaveExtra(context: map<string, Value>, site: Site)
    ensures "extra" in FormattedExtra(context, site) ==> "extra" in GivenExtra(context)
    ensures PresentAt(context, "backtrace") && "backtrace" in FormattedExtra(context, site) ==> "backtrace" in GivenExtra(context)
    ensures PresentAt(context, "tags") && "tags" in FormattedExtra(context, site) ==> "tags" in GivenExtra(context)
  {
    assert !Remains(context, "extra");
  }

  /** An empty `backtrace` or `tags` is not moved: it stays among the extra attributes. */
  lemma EmptyKeysStay(context: map<string, Value>, site: Site, k: string)
    requires k == "backtrace" || k == "tags"
    requires k in context && Empty(context[k])
    ensures k in FormattedExtra(context, site) && FormattedExtra(context, site)[k] == context[k]
    ensures k == "backtrace" ==> TraceOf(context) == Ok(None)
    ensures k == "tags" ==> TagsOf(context).None?
  {
    assert Remains(context, k);
  }

  /** A string backtrace becomes the scrubbed trace. */
  lemma TraceIsScrubbed(context: map<string, Value>, backtrace: string)
    requires "backtrace" in context && context["backtrace"] == Str(backtrace)
    requires backtrace != "" && backtrace != "0"
    ensures TraceOf(context) == Ok(Some(Str(Sanitize(backtrace))))
  {
  }

  /** The caller's extra attributes show up in `extra` under their own keys. */
  lemma GivenExtraShowsUp(site: Site)
    ensures var context := map["extra" := Dict(map["key1" := Str("value1"), "key2" := Str("value2")])];
            && ExtraMergeable(context)
            && FormattedExtra(context, site)["key1"] == Str("value1")
            && FormattedExtra(context, site)["key2"] == Str("value2")
  {
    var context := map["extra" := Dict(map["key1" := Str("value1"), "key2" := Str("value2")])];
    assert !Remains(context, "key1") && !Remains(context, "key2");
    assert "key1" in GivenExtra(context) && "key2" in GivenExtra(context);
  }

  /**
   * A list given as `extra` is merged with its elements renumbered from 0:
   * element j shows up under key j unless a remaining context key j overrides it.
   */
  lemma ListExtraRenumbered(context: map<string, Value>, site: Site, items: seq<Value>, j: nat)
    requires "extra" in context && context["extra"] == List(items) && j < |items|
    requires !Remains(context, NatToString(j))
    ensures ExtraMergeable(context)
    ensures FormattedExtra(context, site)[NatToString(j)] == items[j]
  {
    RenumberedAt(items, j);
    assert GivenExtra(context) == Renumbered(items);
    assert NatToString(j) !in Remaining(context);
  }

  /** Element j of a renumbered list sits under key j. */
  lemma RenumberedAt(items: seq<Value>, j: nat)
    requires j < |items|
    ensures NatToString(j) in Renumbered(items) && Renumbered(items)[NatToString(j)] == items[j]
  {
    NatToStringIsKey();
  }

  /** An empty list as `extra` adds nothing, like a missing one. */
  lemma EmptyListExtra(context: map<string, Value>, site: Site)
    requires "extra" in context && context["extra"] == List([])
    ensures ExtraMergeable(context) && GivenExtra(context) == map[]
    ensures FormattedExtra(context, site) == FormattedExtra(context - {"extra"}, site)
  {
    assert Remaining(context) == Remaining(context - {"extra"});
  }

  /**
   * A backtrace given as a list of frames has the string `file` of every
   * frame scrubbed.
   */
  lemma TraceFramesScrubbed(context: map<string, Value>, frames: seq<Value>, j: nat, file: string)
    requires "backtrace" in context && context["backtrace"] == List(frames) && j < |frames|
    requires frames[j].Dict? && "file" in frames[j].entries && frames[j].entries["file"] == Str(file)
    ensures TraceOf(context).Ok? && TraceOf(context).value.Some?
    ensures var t := TraceOf(context).value.value;
            && t.List? && |t.items| == |frames|
            && t.items[j].Dict? && "file" in t.items[j].entries
            && t.items[j].entries["file"] == Str(Sanitize(file))
  {
    assert PresentAt(context, "backtrace");
  }

  /** Two `array_merge`s of string-keyed arrays are the overlay of the three layers. */
  lemma MergeIsOverlay(base: map<string, Value>, over: map<string, Value>, top: map<string, Value>)
    ensures (base + over) + top == Overlay(base, over, top)
  {
  }

  /** Formatting that raises nothing: the two `array_merge`s of `extra`, in order. */
  lemma FormattedLogOk(level: string, message: string, context: map<string, Value>, site: Site)
    requires TraceOf(context).Ok? && ExtraMergeable(context)
    ensures FormattedLog(level, message, context, site)
            == Ok(LogData("woocommerce_core", level, Sanitize(message), site.host, TraceOf(context).value,
                          TagsOf(context), BlogId(site), (Defaults(site) + GivenExtra(context)) + Remaining(context)))
  {
    MergeIsOverlay(Defaults(site), GivenExtra(context), Remaining(context));
  }

  /** Unsetting a non-empty `backtrace` leaves `tags`, `error` and `extra` as they were. */
  lemma BacktraceUnset(context: map<string, Value>, c1: map<string, Value>)
    requires c1 == if PresentAt(context, "backtrace") then context - {"backtrace"} else context
    ensures PresentAt(c1, "tags") == PresentAt(context, "tags")
    ensures "tags" in c1 ==> c1["tags"] == context["tags"]
  {
  }

  /**
   * The context after `get_formatted_log`'s successive `unset`s of
   * `backtrace` and `tags` and the error-file scrub still holds the caller's
   * `extra`, and without it is the remaining context.
   */
  lemma RemainingBySteps(context: map<string, Value>, c1: map<string, Value>, c2: map<string, Value>, c3: map<string, Value>)
    requires c1 == if PresentAt(context, "backtrace") then context - {"backtrace"} else context
    requires c2 == if PresentAt(c1, "tags") then c1 - {"tags"} else c1
    requires c3 == if ScrubsErrorFile(c2) then c2["error" := ScrubbedError(c2["error"])] else c2
    ensures "extra" in c3 <==> "extra" in context
    ensures "extra" in c3 ==> c3["extra"] == context["extra"]
    ensures c3 - {"extra"} == Remaining(context)
  {
    BacktraceUnset(context, c1);
    assert ScrubsErrorFile(c2) == ScrubsErrorFile(context);
    assert "error" in c2 ==> c2["error"] == context["error"];
  }

  // ---------------------------------------------------------------------
  // The logger object
  // ---------------------------------------------------------------------

  /** How one call of `log` ended. */
  datatype Outcome =
    | NotAllowed           // is_remote_logging_allowed said no
    | Throttled            // ten posts already inside the window
    | Suppressed           // the message filter returned null
    | Raised(error: string) // a TypeError escaped get_formatted_log
    | Sent(data: LogData)  // handed to the non-blocking HTTP post

  const ThrottledInfo: string := "Remote logging throttled."

  /** The `_doing_it_wrong` text for an invalid level (its translation is not modelled). */
  function InvalidLevelNotice(level: string): string
  {
    "<code>WC_Remote_Logger::log</code> was called with an invalid level \"" + level + "\"."
  }

  class RemoteLogger {
    /** The `woocommerce_remote_logging_throttle` transient; empty when it is missing. */
    var timestamps: seq<int>
    /** Entries handed to the HTTP post, in order. */
    ghost var posted: seq<LogData>
    /** Messages written through the local logger's `info`. */
    ghost var infos: seq<string>
    /** `_doing_it_wrong` notices. */
    ghost var notices: seq<string>

    constructor ()
      ensures timestamps == [] && posted == [] && infos == [] && notices == []
    {
      timestamps := [];
      posted := [];
      infos := [];
      notices := [];
    }

    /**
     * should_throttle_logging: a missing or empty list never throttles and is
     * not written; otherwise the in-window timestamps are written back and
     * counted against the limit.
     */
    method ShouldThrottleLogging(now: int) returns (throttled: bool)
      modifies this
      ensures throttled <==> Throttles(old(timestamps), now)
      ensures timestamps == Recent(old(timestamps), now)
      ensures posted == old(posted) && infos == old(infos) && notices == old(notices)
    {
      if timestamps == [] {
        return false;
      }
      timestamps := Recent(timestamps, now);
      throttled := |timestamps| >= ThrottleLimit;
    }

    /** record_log_timestamp: append the current time to the stored list. */
    method RecordLogTimestamp(now: int)
      modifies this
      ensures timestamps == old(timestamps) + [now]
      ensures posted == old(posted) && infos == old(infos) && notices == old(notices)
    {
      timestamps := timestamps + [now];
    }

    /**
     * get_formatted_log, step by step: build the fixed fields, move a
     * non-empty `backtrace` and `tags` out of the context, read the blog
     * details, scrub the error file, then merge the defaults, the caller's
     * `extra` and the remaining context.
     */
    method GetFormattedLog(level: string, message: string, context: map<string, Value>, site: Site)
      returns (r: Result<LogData>)
      ensures r == FormattedLog(level, message, context, site)
    {
      var ctx := context;
      var trace: Option<Value> := None;
      if PresentAt(ctx, "backtrace") {
        var t := SanitizeTrace(ctx["backtrace"]);
        if t.Err? {
          return Err(t.message);
        }
        trace := Some(t.value);
        ctx := ctx - {"backtrace"};
      }
      assert trace == TraceOf(context).value;
      ghost var c1 := ctx;
      BacktraceUnset(context, c1);
      var tags: Option<Value> := None;
      if PresentAt(ctx, "tags") {
        tags := Some(ctx["tags"]);
        ctx := ctx - {"tags"};
      }
      ghost var c2 := ctx;
      var blogId: Option<Value> := None;
      var storeId: Value := Null;
      if site.blogDetails.Some? {
        var details := site.blogDetails.value;
        if "blog_id" in details && details["blog_id"].Num? && details["blog_id"].n > 0 {
          blogId := Some(details["blog_id"]);
        }
        if "store_id" in details {
          storeId := details["store_id"];
        }
      }
      if ScrubsErrorFile(ctx) {
        ctx := ctx["error" := ScrubbedError(ctx["error"])];
      }
      RemainingBySteps(context, c1, c2, ctx);
      var given := if "extra" in ctx then ctx["extra"] else Null;
      if !(given.Null? || given.Dict? || given.List?) {
        return Err("array_merge(): Argument #2 must be of type array");
      }
      var extraAttrs := map["wc_version" := Str(site.wcVersion), "store_id" := storeId]
                        + (if given.Dict? then given.entries else if given.List? then Renumbered(given.items) else map[]);
      assert extraAttrs == Defaults(site) + GivenExtra(context);
      ctx := ctx - {"extra"};
      FormattedLogOk(level, message, context, site);
      r := Ok(LogData("woocommerce_core", level, Sanitize(message), site.host, trace, tags, blogId, extraAttrs + ctx));
    }

    /**
     * log: stop when logging is not allowed or when throttled (telling the
     * local logger); warn about an invalid level but go on; stop when the
     * filter returns null; otherwise format, post and record the time.
     */
    method Log(level: string, message: string, context: map<string, Value>,
               gate: Gate, atLeast: (string, string) -> bool, validLevel: bool,
               filtered: Option<string>, site: Site, checkedAt: int, recordedAt: int)
      returns (outcome: Outcome)
      modifies this
      ensures !IsRemoteLoggingAllowed(gate, atLeast) ==>
                outcome == NotAllowed && timestamps == old(timestamps)
                && posted == old(posted) && infos == old(infos) && notices == old(notices)
      ensures IsRemoteLoggingAllowed(gate, atLeast) && Throttles(old(timestamps), checkedAt) ==>
                outcome == Throttled && timestamps == Recent(old(timestamps), checkedAt)
                && posted == old(posted) && infos == old(infos) + [ThrottledInfo] && notices == old(notices)
      ensures IsRemoteLoggingAllowed(gate, atLeast) && !Throttles(old(timestamps), checkedAt) ==>
                infos == old(infos)
                && notices == old(notices) + (if validLevel then [] else [InvalidLevelNotice(level)])
                && match filtered
                   case None =>
                     outcome == Suppressed && posted == old(posted) && timestamps == Recent(old(timestamps), checkedAt)
                   case Some(m) =>
                     match FormattedLog(level, m, context, site)
                     case Err(e) =>
                       outcome == Raised(e) && posted == old(posted) && timestamps == Recent(old(timestamps), checkedAt)
                     case Ok(d) =>
                       outcome == Sent(d) && posted == old(posted) + [d]
                       && timestamps == Recent(old(timestamps), checkedAt) + [recordedAt]
    {
      if !IsRemoteLoggingAllowed(gate, atLeast) {
        return NotAllowed;
      }
      var throttled := ShouldThrottleLogging(checkedAt);
      if throttled {
        infos := infos + [ThrottledInfo];
        return Throttled;
      }
      if !validLevel {
        notices := notices + [InvalidLevelNotice(level)];
      }
      if filtered.None? {
        return Suppressed;
      }
      var logData := GetFormattedLog(level, filtered.value, context, site);
      if logData.Err? {
        return Raised(logData.message);
      }
      posted := posted + [logData.value];
      RecordLogTimestamp(recordedAt);
      outcome := Sent(logData.value);
    }
  }

  /**
   * A post is counted by every later throttle check within the window: after
   * the throttle check at `now` prunes the list and the post appends `recordedAt`, a
   * check at any `later` time that still has `recordedAt` in its window sees
   * the earlier posts it would have seen anyway, followed by this one.
   */
  lemma SentPostsStayCounted(ts: seq<int>, now: int, recordedAt: int, later: int)
    requires now <= recordedAt <= later && InWindow(later, recordedAt)
    ensures Recent(Recent(ts, now) + [recordedAt], later) == Recent(ts, later) + [recordedAt]
  {
    RecentAppend(Recent(ts, now), [recordedAt], later);
    RecentLater(ts, now, later);
    assert Recent([recordedAt], later) == Recent([], later) + [recordedAt];
  }
}
