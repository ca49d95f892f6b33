/** What `tokenize` and the loop over the channels in `read_features` find, said by positions in the line
    (src/parse_primitives.cc, src/parse_example.cc). */
module Namespaces {
  import opened Basics
  import opened CacheCodec
  import opened ReadExample

  // ------------------------------------------------------------ tokens by position

  datatype Cut = Cut(from: nat, to: nat)

  /** A longest nonempty stretch without the delimiter. */
  ghost predicate IsStretch(delim: Byte, s: seq<Byte>, c: Cut) {
    && c.from < c.to <= |s| && delim !in s[c.from..c.to]
    && (c.from == 0 || s[c.from - 1] == delim)
    && (c.to == |s| || s[c.to] == delim)
  }

  ghost predicate InOrder(cuts: seq<Cut>) {
    forall k, m :: 0 <= k < m < |cuts| ==> cuts[k].to < cuts[m].from
  }

  /** The stretches that begin at `from` or later, in order and all of them. */
  ghost predicate AllStretches(delim: Byte, s: seq<Byte>, from: nat, cuts: seq<Cut>) {
    && InOrder(cuts)
    && (forall c :: c in cuts <==> from <= c.from && IsStretch(delim, s, c))
  }

  ghost predicate AreTheCuts(tokens: seq<seq<Byte>>, s: seq<Byte>, cuts: seq<Cut>) {
    && |tokens| == |cuts|
    && (forall k :: 0 <= k < |cuts| ==> cuts[k].from <= cuts[k].to <= |s| && tokens[k] == s[cuts[k].from..cuts[k].to])
  }

  lemma Within(delim: Byte, s: seq<Byte>, c: Cut, i: nat)
    requires IsStretch(delim, s, c) && c.from <= i < c.to
    ensures s[i] != delim
  {
    assert s[i] == s[c.from..c.to][i - c.from];
  }

  /** No stretch begins at a delimiter. */
  lemma PastDelimiter(delim: Byte, s: seq<Byte>, from: nat, cuts: seq<Cut>)
    requires from < |s| && s[from] == delim && AllStretches(delim, s, from + 1, cuts)
    ensures AllStretches(delim, s, from, cuts)
  {
    forall c: Cut | from <= c.from && IsStretch(delim, s, c) ensures from + 1 <= c.from {
      Within(delim, s, c, c.from);
    }
  }

  /** The stretch that begins at `from` is the first one. */
  lemma PastStretch(delim: Byte, s: seq<Byte>, from: nat, to: nat, cuts: seq<Cut>)
    requires IsStretch(delim, s, Cut(from, to)) && AllStretches(delim, s, to, cuts)
    ensures AllStretches(delim, s, from, [Cut(from, to)] + cuts)
  {
    var all := [Cut(from, to)] + cuts;
    forall c: Cut | c in cuts ensures to < c.from {
      Within(delim, s, c, c.from);
    }
    forall k, m | 0 <= k < m < |all| ensures all[k].to < all[m].from {
      assert all[m] == cuts[m - 1] && all[m] in cuts;
      if k > 0 { assert all[k] == cuts[k - 1]; }
    }
    forall c: Cut | from <= c.from && IsStretch(delim, s, c) ensures c in all {
      OneStretch(delim, s, Cut(from, to), c);
    }
  }

  /** Stretches that meet are the same. */
  lemma OneStretch(delim: Byte, s: seq<Byte>, a: Cut, b: Cut)
    requires IsStretch(delim, s, a) && IsStretch(delim, s, b)
    ensures a.from <= b.from < a.to ==> a == b
  {
    if a.from <= b.from < a.to {
      if a.from < b.from { Within(delim, s, a, b.from - 1); }
      if a.to < b.to { Within(delim, s, b, a.to); }
      if b.to < a.to { Within(delim, s, a, b.to); }
    }
  }

  lemma OneMoreToken(tokens: seq<seq<Byte>>, s: seq<Byte>, cuts: seq<Cut>, c: Cut)
    requires AreTheCuts(tokens, s, cuts) && c.from <= c.to <= |s|
    ensures AreTheCuts([s[c.from..c.to]] + tokens, s, [c] + cuts)
  {
  }

  /** The stretch that begins at `from`, and the tokens it is the first of. */
  lemma FirstStretch(delim: Byte, s: seq<Byte>, from: nat) returns (to: nat)
    requires from < |s| && s[from] != delim && (from == 0 || s[from - 1] == delim)
    ensures IsStretch(delim, s, Cut(from, to))
    ensures Tokens(delim, s[from..]) == [s[from..to]] + Tokens(delim, s[to..])
  {
    var n := FirstAt(s[from..], delim);
    to := from + n;
    assert s[from..][..n] == s[from..to] && s[from..][n..] == s[to..];
  }

  lemma {:induction false} StretchesFrom(delim: Byte, s: seq<Byte>, from: nat) returns (cuts: seq<Cut>)
    requires from <= |s| && (from == 0 || from == |s| || s[from] == delim || s[from - 1] == delim)
    ensures AllStretches(delim, s, from, cuts) && AreTheCuts(Tokens(delim, s[from..]), s, cuts)
    decreases |s| - from
  {
    if from == |s| {
      cuts := [];
    } else if s[from] == delim {
      cuts := StretchesFrom(delim, s, from + 1);
      assert s[from..][1..] == s[from + 1..];
      PastDelimiter(delim, s, from, cuts);
    } else {
      var to := FirstStretch(delim, s, from);
      var rest := StretchesFrom(delim, s, to);
      hide Tokens;
      PastStretch(delim, s, from, to, rest);
      cuts := [Cut(from, to)] + rest;
      OneMoreToken(Tokens(delim, s[to..]), s, rest, Cut(from, to));
    }
  }

  /** The tokens are all the longest nonempty stretches without the delimiter, from left to right. */
  lemma TokensAreStretches(delim: Byte, s: seq<Byte>) returns (cuts: seq<Cut>)
    ensures InOrder(cuts) && (forall c :: c in cuts <==> IsStretch(delim, s, c))
    ensures AreTheCuts(Tokens(delim, s), s, cuts)
  {
    cuts := StretchesFrom(delim, s, 0);
    assert s[0..] == s;
  }

  /** The channels are the stretches without a bar that stand behind a bar. */
  lemma ChannelsFollowBars(line: seq<Byte>) returns (cuts: seq<Cut>)
    requires line != []
    ensures InOrder(cuts) && (forall c :: c in cuts <==> c.from > 0 && IsStretch(BAR, line, c))
    ensures AreTheCuts(Channels(line), line, cuts)
  {
    if line[0] == BAR {
      cuts := StretchesFrom(BAR, line, 1);
    } else {
      var n := FirstStretch(BAR, line, 0);
      cuts := StretchesFrom(BAR, line, n);
      forall c: Cut | 0 < c.from && IsStretch(BAR, line, c) ensures n <= c.from {
        OneStretch(BAR, line, Cut(0, n), c);
      }
    }
  }

  // ------------------------------------------------------------ what a channel names and holds

  /** The namespace byte: a blank in front stands for itself, otherwise it is the first byte that is no colon. */
  ghost predicate Named(channel: seq<Byte>, b: Byte) {
    || (channel != [] && channel[0] == BLANK && b == BLANK)
    || (b != BLANK && b != COLON
        && exists k | 0 <= k < |channel| :: channel[k] == b && forall j :: 0 <= j < k ==> channel[j] == COLON)
  }

  /** Nothing but colons up to the first blank. */
  ghost predicate Nameless(channel: seq<Byte>) {
    exists k | 0 < k <= |channel| ::
      (k < |channel| ==> channel[k] == BLANK) && forall j :: 0 <= j < k ==> channel[j] == COLON
  }

  /** Something stands behind a blank. */
  ghost predicate HasWord(channel: seq<Byte>) {
    exists i, j | 0 <= i < j < |channel| :: channel[i] == BLANK && channel[j] != BLANK
  }

  /** The channel gives namespace `b` features. */
  ghost predicate Lists(channel: seq<Byte>, b: Byte) {
    HasWord(channel) && Named(channel, b)
  }

  /** The channel adds features under `b`: without a name they go to namespace 0, which is not listed for it. */
  ghost predicate Fills(channel: seq<Byte>, b: Byte) {
    HasWord(channel) && (Named(channel, b) || (b == 0 && Nameless(channel)))
  }

  lemma {:induction false} NoTokens(delim: Byte, s: seq<Byte>)
    ensures Tokens(delim, s) == [] <==> forall j :: 0 <= j < |s| ==> s[j] == delim
  {
    if s != [] && s[0] == delim {
      NoTokens(delim, s[1..]);
      assert forall j :: 0 < j < |s| ==> s[j] == s[1..][j - 1];
    }
  }

  /** The first byte of the first token is the first that is not the delimiter. */
  lemma {:induction false} FirstByte(delim: Byte, s: seq<Byte>) returns (k: nat)
    requires Tokens(delim, s) != []
    ensures k < |s| && s[k] != delim && (forall j :: 0 <= j < k ==> s[j] == delim)
    ensures TokenStart(delim, s) == Some(s[k])
  {
    TokenBytes(delim, s, 0);
    if s[0] == delim {
      k := FirstByte(delim, s[1..]);
      k := k + 1;
    } else {
      k := 0;
    }
  }

  /** The words of a channel that begins with a name. */
  lemma NameAndWords(channel: seq<Byte>) returns (n: nat)
    requires channel != [] && channel[0] != BLANK
    ensures 0 < n <= |channel| && BLANK !in channel[..n] && (n < |channel| ==> channel[n] == BLANK)
    ensures Tokens(BLANK, channel) == [channel[..n]] + Tokens(BLANK, channel[n..])
  {
    n := FirstAt(channel, BLANK);
  }

  lemma CountsWords(channel: seq<Byte>)
    requires channel != []
    ensures FeatureCount(channel) > 0 <==> HasWord(channel)
  {
    if channel[0] == BLANK {
      NoTokens(BLANK, channel);
      hide Tokens;
      if j :| 0 <= j < |channel| && channel[j] != BLANK {
        assert 0 < j && channel[0] == BLANK;
      }
    } else {
      var n := NameAndWords(channel);
      NoTokens(BLANK, channel[n..]);
      hide Tokens;
      if j :| 0 <= j < |channel[n..]| && channel[n..][j] != BLANK {
        assert channel[n] == BLANK && channel[n + j] != BLANK && j > 0;
      }
      if HasWord(channel) {
        var i, j :| 0 <= i < j < |channel| && channel[i] == BLANK && channel[j] != BLANK;
        assert i >= n by { assert forall x :: 0 <= x < n ==> channel[x] == channel[..n][x]; }
        assert channel[n..][j - n] != BLANK;
      }
    }
  }

  lemma NamedOnce(channel: seq<Byte>, a: Byte, b: Byte)
    requires Named(channel, a)
    ensures Named(channel, b) ==> a == b
    ensures !Nameless(channel)
  {
  }

  /** The byte the code takes is the one the channel begins with, and there is none when the name is all colons. */
  lemma FindsName(channel: seq<Byte>)
    requires channel != [] && Tokens(BLANK, channel) != []
    ensures NamespaceOf(channel).Some? ==> Named(channel, NamespaceOf(channel).value)
    ensures NamespaceOf(channel).None? ==> Nameless(channel)
  {
    if channel[0] != BLANK {
      var n := NameAndWords(channel);
      var word := channel[..n];
      assert Tokens(BLANK, channel)[0] == word;
      NoTokens(COLON, word);
      if Tokens(COLON, word) == [] {
        assert forall j :: 0 <= j < n ==> channel[j] == word[j];
        assert Nameless(channel);
      } else {
        var k := FirstByte(COLON, word);
        hide Tokens;
        assert word[k] in word && word[k] == channel[k];
        assert forall j :: 0 <= j < k ==> channel[j] == word[j];
        assert Named(channel, channel[k]);
      }
    }
  }

  /** One round, by what the channel holds. */
  lemma ReadChannelIs(channel: seq<Byte>, l: Listed)
    requires channel != []
    ensures ReadChannel(channel, l).filled == l.filled + (set b | Fills(channel, b))
    ensures ReadChannel(channel, l).indices == l.indices
         || exists b :: Lists(channel, b) && b !in l.filled && ReadChannel(channel, l).indices == l.indices + [b]
    ensures forall b :: Lists(channel, b) && b !in l.filled ==> ReadChannel(channel, l).indices == l.indices + [b]
  {
    CountsWords(channel);
    if Tokens(BLANK, channel) == [] {
      NoTokens(BLANK, channel);
      assert FeatureCount(channel) <= 0;
    } else {
      FindsName(channel);
      hide Tokens, FeatureCount, HasWord;
      match NamespaceOf(channel) {
        case Some(index) =>
          forall b | Named(channel, b) ensures b == index { NamedOnce(channel, index, b); }
          NamedOnce(channel, index, index);
        case None =>
          forall b ensures !Named(channel, b) {
            if Named(channel, b) { NamedOnce(channel, b, b); }
          }
      }
    }
  }

  // ------------------------------------------------------------ the list

  /** Channel `i` is the one that lists `b`: nothing filled it before. */
  ghost predicate ListedAt(channels: seq<seq<Byte>>, filled: set<Byte>, i: nat, b: Byte) {
    i < |channels| && b !in filled && Lists(channels[i], b) && forall j :: 0 <= j < i ==> !Fills(channels[j], b)
  }

  /** Entry p of the list comes from channel `at[p]`, and the list follows the channels. */
  ghost predicate FollowsChannels(channels: seq<seq<Byte>>, filled: set<Byte>, indices: seq<Byte>, at: seq<nat>) {
    && |at| == |indices|
    && (forall p, q :: 0 <= p < q < |at| ==> at[p] < at[q])
    && (forall p :: 0 <= p < |at| ==> ListedAt(channels, filled, at[p], indices[p]))
  }

  ghost predicate FilledBy(channels: seq<seq<Byte>>, filled: set<Byte>, b: Byte) {
    b in filled || exists i | 0 <= i < |channels| :: Fills(channels[i], b)
  }

  /** A byte is listed exactly when some channel that begins with it has a word and nothing before filled it; the list
      is in the order of those channels. */
  lemma {:induction false} ListsExactly(channels: seq<seq<Byte>>, filled: set<Byte>) returns (at: seq<nat>)
    requires forall i :: 0 <= i < |channels| ==> channels[i] != []
    ensures var l := ReadChannels(channels, Listed([], filled));
      && FollowsChannels(channels, filled, l.indices, at)
      && (forall b :: b in l.indices <==> exists i: nat :: ListedAt(channels, filled, i, b))
      && (forall b :: b in l.filled <==> FilledBy(channels, filled, b))
  {
    if channels == [] {
      at := [];
    } else {
      var n := |channels| - 1;
      var front, l := channels[..n], ReadChannels(channels[..n], Listed([], filled));
      at := ListsExactly(front, filled);
      ReadChannelIs(channels[n], l);
      assert ReadChannels(channels, Listed([], filled)) == ReadChannel(channels[n], l);
      at := OneMore(channels, filled, l, ReadChannel(channels[n], l), at);
    }
  }

  lemma EarlierStay(channels: seq<seq<Byte>>, filled: set<Byte>, i: nat, b: Byte)
    requires channels != [] && i < |channels| - 1
    ensures ListedAt(channels[..|channels| - 1], filled, i, b) <==> ListedAt(channels, filled, i, b)
  {
  }

  lemma LastIsNew(channels: seq<seq<Byte>>, filled: set<Byte>, b: Byte)
    requires channels != []
    ensures ListedAt(channels, filled, |channels| - 1, b)
       <==> !FilledBy(channels[..|channels| - 1], filled, b) && Lists(channels[|channels| - 1], b)
  {
    var n := |channels| - 1;
    var front := channels[..n];
    assert forall j :: 0 <= j < n ==> front[j] == channels[j];
  }

  lemma FilledByOneMore(channels: seq<seq<Byte>>, filled: set<Byte>, b: Byte)
    requires channels != []
    ensures FilledBy(channels, filled, b)
       <==> FilledBy(channels[..|channels| - 1], filled, b) || Fills(channels[|channels| - 1], b)
  {
    hide Fills;
    var n := |channels| - 1;
    var front := channels[..n];
    assert forall j :: 0 <= j < n ==> front[j] == channels[j];
    if i :| 0 <= i < |channels| && Fills(channels[i], b) && i != n { assert Fills(front[i], b); }
    if i :| 0 <= i < n && Fills(front[i], b) { assert Fills(channels[i], b); }
  }

  lemma OneMore(channels: seq<seq<Byte>>, filled: set<Byte>, l: Listed, l': Listed, at: seq<nat>)
    returns (at': seq<nat>)
    requires channels != []
    requires var n := |channels| - 1;
      && FollowsChannels(channels[..n], filled, l.indices, at)
      && (forall b :: b in l.indices <==> exists i: nat :: ListedAt(channels[..n], filled, i, b))
      && (forall b :: b in l.filled <==> FilledBy(channels[..n], filled, b))
      && l'.filled == l.filled + (set b | Fills(channels[n], b))
      && (l'.indices == l.indices
          || exists b :: Lists(channels[n], b) && b !in l.filled && l'.indices == l.indices + [b])
      && (forall b :: Lists(channels[n], b) && b !in l.filled ==> l'.indices == l.indices + [b])
    ensures FollowsChannels(channels, filled, l'.indices, at')
    ensures forall b :: b in l'.indices <==> exists i: nat :: ListedAt(channels, filled, i, b)
    ensures forall b :: b in l'.filled <==> FilledBy(channels, filled, b)
  {
    hide Lists, Fills;
    var n := |channels| - 1;
    forall b ensures b in l'.filled <==> FilledBy(channels, filled, b) { FilledByOneMore(channels, filled, b); }
    forall b ensures ListedAt(channels, filled, n, b) <==> b !in l.filled && Lists(channels[n], b) {
      LastIsNew(channels, filled, b);
    }
    forall i: nat, b | i < n
      ensures ListedAt(channels[..n], filled, i, b) <==> ListedAt(channels, filled, i, b)
    {
      EarlierStay(channels, filled, i, b);
    }
    assert forall i: nat, b :: ListedAt(channels, filled, i, b) ==> i <= n;
    assert forall i: nat, b :: ListedAt(channels[..n], filled, i, b) ==> i < n;
    hide ListedAt, FilledBy;
    if l'.indices == l.indices {
      at' := at;
      assert forall b :: !ListedAt(channels, filled, n, b);
    } else {
      at' := at + [n];
      var b :| Lists(channels[n], b) && b !in l.filled && l'.indices == l.indices + [b];
      assert ListedAt(channels, filled, n, b);
    }
  }

  /** The stretch behind a bar that lists `b`: no stretch behind an earlier bar fills it. */
  ghost predicate LinesUp(line: seq<Byte>, c: Cut, b: Byte) {
    && c.from > 0 && IsStretch(BAR, line, c) && Lists(line[c.from..c.to], b)
    && forall d: Cut :: 0 < d.from < c.from && IsStretch(BAR, line, d) ==> !Fills(line[d.from..d.to], b)
  }

  /** The same for a whole line, by positions only. */
  lemma LineListsExactly(line: seq<Byte>, filled: set<Byte>, b: Byte)
    requires line != []
    ensures b in ReadChannels(Channels(line), Listed([], filled)).indices
       <==> b !in filled && exists c :: LinesUp(line, c, b)
  {
    var cuts := ChannelsFollowBars(line);
    var at := ListsExactly(Channels(line), filled);
    var channels := Channels(line);
    hide ReadChannels, Channels, Lists, Fills;
    forall i | 0 <= i < |cuts| && b !in filled ensures ListedAt(channels, filled, i, b) <==> LinesUp(line, cuts[i], b) {
      hide FollowsChannels;
      assert cuts[i] in cuts;
      SameTest(line, filled, channels, cuts, i, b);
    }
    hide ListedAt, LinesUp;
    if b in ReadChannels(channels, Listed([], filled)).indices {
      var i: nat :| ListedAt(channels, filled, i, b);
      AtAChannel(channels, filled, i, b);
      assert LinesUp(line, cuts[i], b);
    }
    if c :| b !in filled && LinesUp(line, c, b) {
      AStretch(line, c, b);
      var i :| 0 <= i < |cuts| && cuts[i] == c;
    }
  }

  lemma AtAChannel(channels: seq<seq<Byte>>, filled: set<Byte>, i: nat, b: Byte)
    requires ListedAt(channels, filled, i, b)
    ensures i < |channels| && b !in filled
  {
  }

  lemma AStretch(line: seq<Byte>, c: Cut, b: Byte)
    requires LinesUp(line, c, b)
    ensures c.from > 0 && IsStretch(BAR, line, c)
  {
  }

  lemma SameTest(line: seq<Byte>, filled: set<Byte>, channels: seq<seq<Byte>>, cuts: seq<Cut>, i: nat, b: Byte)
    requires InOrder(cuts) && (forall c :: c in cuts <==> c.from > 0 && IsStretch(BAR, line, c))
    requires AreTheCuts(channels, line, cuts) && i < |cuts| && b !in filled
    ensures ListedAt(channels, filled, i, b) <==> LinesUp(line, cuts[i], b)
  {
    hide Lists, Fills;
    assert cuts[i] in cuts;
    if ListedAt(channels, filled, i, b) {
      assert forall m :: i < m < |cuts| ==> cuts[i].to < cuts[m].from;
      forall d: Cut | 0 < d.from < cuts[i].from && IsStretch(BAR, line, d) ensures !Fills(line[d.from..d.to], b) {
        var j :| 0 <= j < |cuts| && cuts[j] == d;
        assert j < i;
        assert channels[j] == line[d.from..d.to];
      }
    }
    if LinesUp(line, cuts[i], b) {
      forall j | 0 <= j < i ensures !Fills(channels[j], b) {
        assert cuts[j] in cuts && cuts[j].to < cuts[i].from;
      }
    }
  }
}
