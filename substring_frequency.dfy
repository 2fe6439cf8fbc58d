/** Counting the substrings of a fixed length in one pass over a character sequence, read
    through a cursor with a sliding window. */
module SubstringFrequency {
  import opened Outcomes
  import opened LazySequences
  import opened Generators

  /** The substrings of s of length k, by starting position. */
  function Windows(s: string, k: nat): seq<string>
    requires k > 0
    decreases |s|
  {
    if |s| < k then [] else Windows(s[..|s| - 1], k) + [s[|s| - k..]]
  }

  /** There are |s| - k + 1 windows of length k when s is long enough, and none otherwise;
      the window at p is s[p..p + k]. */
  lemma {:induction false} WindowsAt(s: string, k: nat)
    requires k > 0
    ensures |Windows(s, k)| == if |s| >= k then |s| - k + 1 else 0
    ensures forall p :: 0 <= p < |Windows(s, k)| ==> Windows(s, k)[p] == s[p..p + k]
    decreases |s|
  {
    if |s| >= k {
      var init := s[..|s| - 1];
      WindowsAt(init, k);
      var before := Windows(init, k);
      var w := before + [s[|s| - k..]];
      assert Windows(s, k) == w;
      forall p | 0 <= p < |w| ensures w[p] == s[p..p + k] {
        if p < |before| {
          assert w[p] == before[p] == init[p..p + k];
          assert init[p..p + k] == s[p..p + k];
        } else {
          assert p == |s| - k;
        }
      }
    }
  }

  /** Reading one more character adds the window that ends at it, once there are k of them. */
  lemma WindowsSnoc(s: string, k: nat, i: nat)
    requires k > 0 && i < |s|
    ensures i + 1 >= k ==> Windows(s[..i + 1], k) == Windows(s[..i], k) + [s[i + 1 - k..i + 1]]
    ensures i + 1 < k ==> Windows(s[..i + 1], k) == []
  {
    var t := s[..i + 1];
    assert t[..|t| - 1] == s[..i];
    if i + 1 >= k {
      assert t[|t| - k..] == s[i + 1 - k..i + 1];
    }
  }

  /** The last min(k, |t|) characters of t: what the window holds after reading t. */
  function Last(t: string, k: nat): (w: string)
    ensures |w| == if |t| < k then |t| else k
    ensures w == t[|t| - |w|..]
  {
    if |t| <= k then t else t[|t| - k..]
  }

  /** Pushing the next character onto the window, and dropping its first one when it grows
      past k, keeps it the last min(k, read) characters read. */
  lemma SlideWindow(s: string, k: nat, i: nat, window: string, pushed: string, next: string)
    requires k > 0 && i < |s|
    requires window == Last(s[..i], k)
    requires pushed == window + [s[i]]
    requires next == if |pushed| > k then pushed[1..] else pushed
    ensures next == Last(s[..i + 1], k)
  {
    if i < k {
      assert window == s[..i];
      assert pushed == s[..i + 1];
    } else {
      assert window == s[i - k..i];
      assert pushed == s[i - k..i + 1];
      assert next == s[i + 1 - k..i + 1];
    }
  }

  /** A rule-free read at a cached index answers the entry and changes nothing. */
  lemma CachedRead(s: string, i: nat)
    requires i < |s|
    ensures ValueAt(None, s, i) == Ok(s[i]) && Grown(None, s, i) == s
  {
  }

  /** How often w has been counted in freq: 0 when it is not a key. */
  function Count(freq: map<string, nat>, w: string): nat
  {
    if w in freq then freq[w] else 0
  }

  /** The effect of ++freq[w]: a missing entry starts at 0. */
  function Bump(freq: map<string, nat>, w: string): (r: map<string, nat>)
    ensures Count(r, w) == Count(freq, w) + 1
    ensures forall u :: u != w ==> Count(r, u) == Count(freq, u)
    ensures r.Keys == freq.Keys + {w}
  {
    freq[w := Count(freq, w) + 1]
  }

  /** The tally of a sequence of substrings, counted one after another. */
  function Tally(ws: seq<string>): map<string, nat>
  {
    if ws == [] then map[] else Bump(Tally(ws[..|ws| - 1]), ws[|ws| - 1])
  }

  /** The tally counts every substring exactly as often as it occurs, and holds a key for
      exactly the substrings that occur. */
  lemma {:induction false} TallyCounts(ws: seq<string>)
    ensures forall w :: Count(Tally(ws), w) == multiset(ws)[w]
    ensures Tally(ws).Keys == set w | w in ws
  {
    if ws != [] {
      var init, last := ws[..|ws| - 1], ws[|ws| - 1];
      TallyCounts(init);
      assert ws == init + [last];
      assert multiset(ws) == multiset(init) + multiset{last};
    }
  }

  /** Counting one more substring bumps its entry. */
  lemma TallySnoc(ws: seq<string>, w: string)
    ensures Tally(ws + [w]) == Bump(Tally(ws), w)
  {
    assert (ws + [w])[..|ws|] == ws;
  }

  /** One more character read: the full window is counted, and only a full one. */
  lemma CountStep(s: string, k: nat, i: nat, freq: map<string, nat>, window: string)
    requires k > 0 && i < |s|
    requires freq == Tally(Windows(s[..i], k))
    requires window == Last(s[..i + 1], k)
    ensures (if |window| == k then Bump(freq, window) else freq) == Tally(Windows(s[..i + 1], k))
  {
    WindowsSnoc(s, k, i);
    if |window| == k {
      assert window == s[i + 1 - k..i + 1];
      TallySnoc(Windows(s[..i], k), window);
    }
  }

  /** What the count answers for s and k. */
  function Frequencies(s: string, k: nat): map<string, nat>
    requires k > 0
  {
    Tally(Windows(s, k))
  }

  /** The count of each w is the number of positions p with s[p..p + k] == w; every key has
      length k; and the counts add up to |s| - k + 1 windows (none when s is shorter). */
  lemma FrequenciesCount(s: string, k: nat)
    requires k > 0
    ensures forall w :: Count(Frequencies(s, k), w) == multiset(Windows(s, k))[w]
    ensures forall w :: w in Frequencies(s, k) ==> |w| == k
    ensures |multiset(Windows(s, k))| == if |s| >= k then |s| - k + 1 else 0
  {
    TallyCounts(Windows(s, k));
    WindowsAt(s, k);
    forall w | w in Frequencies(s, k) ensures |w| == k {
      var p :| 0 <= p < |Windows(s, k)| && Windows(s, k)[p] == w;
    }
  }

  /** The substring frequencies of length k of a rule-free character sequence: read it
      through a cursor from position 0 while there is a next character, keep the last
      (at most) k characters in a window, and count the window whenever it is full. A
      length of 0 is an invalid argument, reported before anything is read. */
  method CountSubstringFrequencies(sequence: LazySequence<char>, k: nat) returns (r: Result<map<string, nat>>)
    requires sequence.rule.None?
    modifies sequence
    ensures sequence.cache == old(sequence.cache)
    ensures k == 0 ==> r == Err(InvalidArgument)
    ensures k > 0 ==> r == Ok(Frequencies(sequence.cache, k))
  {
    if k == 0 {
      return Err(InvalidArgument);
    }
    ghost var s := sequence.cache;
    var gen := new Generator(sequence);
    var freq: map<string, nat> := map[];
    var window: string := [];
    ghost var i := 0;
    while gen.HasNext()
      invariant gen.owner == sequence && sequence.cache == s && sequence.rule.None?
      invariant gen.index == i <= |s|
      invariant window == Last(s[..i], k)
      invariant freq == Tally(Windows(s[..i], k))
      decreases |s| - i
    {
      var got := gen.GetNext();
      CachedRead(s, i);
      var c := got.value;
      assert c == s[i];
      ghost var before := window;
      window := window + [c];
      ghost var pushed := window;
      if |window| > k {
        window := window[1..];
      }
      SlideWindow(s, k, i, before, pushed, window);
      CountStep(s, k, i, freq, window);
      if |window| == k {
        freq := Bump(freq, window);
      }
      i := i + 1;
    }
    r := Ok(freq);
    assert s[..i] == s;
  }
}
