/** Which namespaces a line of input gives an example (`read_features` in src/parse_example.cc, `tokenize` in
    src/parse_primitives.cc). */
module ReadExample {
  import opened Basics
  import opened CacheCodec

  const NEWLINE := 10
  const BLANK := 32
  const COLON := 58
  const BAR := 124

  // ------------------------------------------------------------ tokenize

  /** How far `s` goes without `delim`. */
  function FirstAt(s: seq<Byte>, delim: Byte): (n: nat)
    ensures n <= |s| && delim !in s[..n] && (n < |s| ==> s[n] == delim)
  {
    if s == [] || s[0] == delim then 0
    else
      var n := FirstAt(s[1..], delim) + 1;
      assert s[..n] == [s[0]] + s[1..][..n - 1];
      n
  }

  /** The longest stretches of `s` without `delim`, none of them empty. */
  function Tokens(delim: Byte, s: seq<Byte>): seq<seq<Byte>> {
    if s == [] then []
    else if s[0] == delim then Tokens(delim, s[1..])
    else
      var n := FirstAt(s, delim);
      [s[..n]] + Tokens(delim, s[n..])
  }

  lemma {:induction false} FirstAtIs(delim: Byte, s: seq<Byte>, n: nat)
    requires n <= |s| && delim !in s[..n] && (n < |s| ==> s[n] == delim)
    ensures FirstAt(s, delim) == n
  {
    if n > 0 {
      assert s[0] == s[..n][0] && s[1..][..n - 1] == s[..n][1..];
      FirstAtIs(delim, s[1..], n - 1);
    }
  }

  /** A stretch that ends at a delimiter, or at the end of `s`, is the first token unless it is empty. */
  lemma FirstToken(delim: Byte, s: seq<Byte>, n: nat)
    requires n <= |s| && delim !in s[..n] && (n < |s| ==> s[n] == delim)
    ensures Tokens(delim, s) == (if n > 0 then [s[..n]] else []) + if n < |s| then Tokens(delim, s[n + 1..]) else []
  {
    FirstAtIs(delim, s, n);
    hide FirstAt;
    if n > 0 {
      assert s[0] == s[..n][0];
      if n < |s| { assert s[n..][0] == delim && s[n..][1..] == s[n + 1..]; }
    }
  }

  /** The stretch from `last` to `start` inside `s`. */
  lemma NextToken(delim: Byte, s: seq<Byte>, last: nat, start: nat)
    requires last <= start <= |s| && delim !in s[last..start] && (start < |s| ==> s[start] == delim)
    ensures Tokens(delim, s[last..]) ==
            (if start != last then [s[last..start]] else []) + if start < |s| then Tokens(delim, s[start + 1..]) else []
  {
    assert s[last..][..start - last] == s[last..start];
    FirstToken(delim, s[last..], start - last);
    if start < |s| { assert s[last..][start - last + 1..] == s[start + 1..]; }
  }

  /** The tokens so far, with the stretch that ends at `start`. */
  function Extended(ret: seq<seq<Byte>>, s: seq<Byte>, last: nat, start: nat): seq<seq<Byte>>
    requires last <= start <= |s|
  {
    if start != last then ret + [s[last..start]] else ret
  }

  /** Before `start` is looked at: `ret` holds the tokens before `last`, and from `last` on there was no delimiter. */
  ghost predicate Tokenizing(delim: Byte, s: seq<Byte>, ret: seq<seq<Byte>>, last: nat, start: nat) {
    && last <= start <= |s| && delim !in s[last..start]
    && Tokens(delim, s) == ret + Tokens(delim, s[last..])
  }

  lemma TokenizeStart(delim: Byte, s: seq<Byte>)
    ensures Tokenizing(delim, s, [], 0, 0)
  {
    assert s[0..] == s;
  }

  lemma TokenizePast(delim: Byte, s: seq<Byte>, ret: seq<seq<Byte>>, last: nat, start: nat)
    requires Tokenizing(delim, s, ret, last, start) && start < |s| && s[start] != delim
    ensures Tokenizing(delim, s, ret, last, start + 1)
  {
    hide Tokens;
    assert s[last..start + 1] == s[last..start] + [s[start]];
  }

  lemma TokenizeCut(delim: Byte, s: seq<Byte>, ret: seq<seq<Byte>>, last: nat, start: nat)
    requires Tokenizing(delim, s, ret, last, start) && start < |s| && s[start] == delim
    ensures Tokenizing(delim, s, Extended(ret, s, last, start), start + 1, start + 1)
  {
    hide Tokens;
    NextToken(delim, s, last, start);
  }

  lemma TokenizeEnd(delim: Byte, s: seq<Byte>, ret: seq<seq<Byte>>, last: nat)
    requires Tokenizing(delim, s, ret, last, |s|)
    ensures Extended(ret, s, last, |s|) == Tokens(delim, s)
  {
    hide Tokens;
    NextToken(delim, s, last, |s|);
  }

  /** `tokenize`. */
  method Tokenize(delim: Byte, s: seq<Byte>) returns (ret: seq<seq<Byte>>)
    ensures ret == Tokens(delim, s)
  {
    ret := [];
    var last := 0;
    TokenizeStart(delim, s);
    hide *;
    for start := 0 to |s|
      invariant last <= start && Tokenizing(delim, s, ret, last, start)
    {
      if s[start] == delim {
        TokenizeCut(delim, s, ret, last, start);
        ret := Extended(ret, s, last, start);
        last := start + 1;
      } else {
        TokenizePast(delim, s, ret, last, start);
      }
    }
    TokenizeEnd(delim, s, ret, last);
    ret := Extended(ret, s, last, |s|);
  }

  lemma {:induction false} TokenBytes(delim: Byte, s: seq<Byte>, k: nat)
    requires k < |Tokens(delim, s)|
    ensures Tokens(delim, s)[k] != [] && delim !in Tokens(delim, s)[k]
    ensures forall x :: x in Tokens(delim, s)[k] ==> x in s
    decreases |s|
  {
    if s[0] == delim {
      TokenBytes(delim, s[1..], k);
    } else if k > 0 {
      TokenBytes(delim, s[FirstAt(s, delim)..], k - 1);
    }
  }

  lemma TokensBytes(delim: Byte, s: seq<Byte>)
    ensures forall k :: 0 <= k < |Tokens(delim, s)| ==> Tokens(delim, s)[k] != [] && delim !in Tokens(delim, s)[k]
    ensures forall k, x :: 0 <= k < |Tokens(delim, s)| && x in Tokens(delim, s)[k] ==> x in s
  {
    forall k | 0 <= k < |Tokens(delim, s)|
      ensures Tokens(delim, s)[k] != [] && delim !in Tokens(delim, s)[k]
      ensures forall x :: x in Tokens(delim, s)[k] ==> x in s
    {
      TokenBytes(delim, s, k);
    }
  }

  // ------------------------------------------------------------ the namespaces of a line

  /** The namespaces listed so far, and those that hold features. */
  datatype Listed = Listed(indices: seq<Byte>, filled: set<Byte>)

  /** The namespace byte of a channel: its first one, or a blank if it has no name; `None` when the name is all
      colons. */
  function NamespaceOf(channel: seq<Byte>): (index: Option<Byte>)
    requires Tokens(BLANK, channel) != []
  {
    if channel[0] == BLANK then Some(BLANK)
    else
      var name := Tokens(COLON, Tokens(BLANK, channel)[0]);
      if name == [] then None else TokenStart(COLON, Tokens(BLANK, channel)[0])
  }

  function TokenStart(delim: Byte, s: seq<Byte>): Option<Byte>
    requires Tokens(delim, s) != []
  {
    TokenBytes(delim, s, 0);
    Some(Tokens(delim, s)[0][0])
  }

  /** How many features a channel adds: all words but the name. */
  function FeatureCount(channel: seq<Byte>): int
    requires channel != []
  {
    |Tokens(BLANK, channel)| - if channel[0] == BLANK then 0 else 1
  }

  /** One round of the loop over the channels: a namespace is listed when it gets its first features. */
  function ReadChannel(channel: seq<Byte>, l: Listed): Listed
    requires channel != []
  {
    if Tokens(BLANK, channel) == [] then l
    else
      match NamespaceOf(channel)
      case None => if FeatureCount(channel) > 0 then l.(filled := l.filled + {0}) else l
      case Some(index) =>
        if FeatureCount(channel) <= 0 then l
        else if index in l.filled then l
        else Listed(l.indices + [index], l.filled + {index})
  }

  /** What the bytes of a line cannot be: a newline, and what the three delimiters strip. */
  predicate Possible(index: Byte) {
    index != NEWLINE && index != COLON && index != BAR
  }

  predicate Distinct(s: seq<Byte>) {
    forall i, j :: 0 <= i < j < |s| ==> s[i] != s[j]
  }

  predicate Proper(l: Listed) {
    && Distinct(l.indices)
    && (forall i :: 0 <= i < |l.indices| ==> Possible(l.indices[i]) && l.indices[i] in l.filled)
  }

  lemma NamespaceIsPossible(channel: seq<Byte>)
    requires channel != [] && Tokens(BLANK, channel) != [] && BAR !in channel && NEWLINE !in channel
    ensures NamespaceOf(channel).Some? ==> Possible(NamespaceOf(channel).value)
  {
    TokenBytes(BLANK, channel, 0);
    var word := Tokens(BLANK, channel)[0];
    if channel[0] != BLANK && Tokens(COLON, word) != [] {
      TokenBytes(COLON, word, 0);
      var x := Tokens(COLON, word)[0][0];
      assert x in Tokens(COLON, word)[0];
      assert x in word && x in channel;
    }
  }

  lemma ChannelKeeps(channel: seq<Byte>, l: Listed)
    requires channel != [] && BAR !in channel && NEWLINE !in channel && Proper(l)
    ensures Proper(ReadChannel(channel, l))
  {
    if Tokens(BLANK, channel) != [] {
      NamespaceIsPossible(channel);
      hide Tokens, NamespaceOf, FeatureCount, Possible;
    }
  }

  /** The channels one after the other. */
  function ReadChannels(channels: seq<seq<Byte>>, l: Listed): Listed
    requires forall i :: 0 <= i < |channels| ==> channels[i] != []
  {
    if channels == [] then l else ReadChannel(channels[|channels| - 1], ReadChannels(channels[..|channels| - 1], l))
  }

  /** The channels of a line: the part before the first bar is the label and the tag. */
  function Channels(line: seq<Byte>): (channels: seq<seq<Byte>>)
    requires line != []
    ensures forall i :: 0 <= i < |channels| ==> channels[i] != [] && BAR !in channels[i]
    ensures forall i :: 0 <= i < |channels| && NEWLINE !in line ==> NEWLINE !in channels[i]
  {
    var channels := Tokens(BAR, line);
    TokensBytes(BAR, line);
    if line[0] == BAR || channels == [] then channels else channels[1..]
  }

  /** The loop of `read_features` over the channels; `filled` may hold what earlier examples left behind. */
  method ReadNamespaces(line: seq<Byte>, filled: set<Byte>) returns (l: Listed)
    requires line != []
    ensures l == ReadChannels(Channels(line), Listed([], filled))
  {
    var channels := Channels(line);
    l := Listed([], filled);
    for i := 0 to |channels|
      invariant l == ReadChannels(channels[..i], Listed([], filled))
    {
      assert channels[..i + 1][..i] == channels[..i];
      l := ReadChannel(channels[i], l);
    }
    assert channels[..|channels|] == channels;
  }

  /** Every namespace is listed once, and none begins with a delimiter. */
  lemma {:induction false} ListedOnce(channels: seq<seq<Byte>>, l: Listed)
    requires forall i :: 0 <= i < |channels| ==> channels[i] != [] && BAR !in channels[i] && NEWLINE !in channels[i]
    requires Proper(l)
    ensures Proper(ReadChannels(channels, l))
  {
    hide ReadChannel, Proper;
    if channels != [] {
      var n := |channels| - 1;
      ListedOnce(channels[..n], l);
      ChannelKeeps(channels[n], ReadChannels(channels[..n], l));
    }
  }

  // ------------------------------------------------------------ how many there can be

  function NumbersBelow(n: nat): (s: set<int>)
    ensures |s| == n && forall x :: x in s <==> 0 <= x < n
  {
    if n == 0 then {} else NumbersBelow(n - 1) + {n - 1}
  }

  lemma {:induction false} Members(s: seq<Byte>)
    requires Distinct(s)
    ensures |set x: int | x in s| == |s|
  {
    if s != [] {
      var front, x := s[..|s| - 1], s[|s| - 1];
      Members(front);
      assert s == front + [x];
      assert x !in front;
      assert (set y: int | y in s) == (set y: int | y in front) + {x};
    }
  }

  lemma SubsetSize(a: set<int>, b: set<int>)
    requires a <= b
    ensures |a| <= |b|
  {
    assert b == a + (b - a);
  }

  lemma OneLess(s: set<int>, x: int)
    requires x in s
    ensures |s - {x}| == |s| - 1
  {
    assert s == (s - {x}) + {x};
  }

  lemma ThreeLess(used: set<int>, all: set<int>, a: int, b: int, c: int)
    requires used <= all && a in all && b in all && c in all && a != b && a != c && b != c
    requires a !in used && b !in used && c !in used
    ensures |used| <= |all| - 3
  {
    OneLess(all, a);
    OneLess(all - {a}, b);
    OneLess(all - {a} - {b}, c);
    SubsetSize(used, all - {a} - {b} - {c});
  }

  lemma AtMost253(l: Listed)
    requires Proper(l)
    ensures |l.indices| <= 253
  {
    var used := set x: int | x in l.indices;
    Members(l.indices);
    assert NEWLINE !in used && COLON !in used && BAR !in used;
    ThreeLess(used, NumbersBelow(256), NEWLINE, COLON, BAR);
  }

  /** No example read from text lists more than 253 namespaces, so the count fits its byte. */
  lemma CountFits(line: seq<Byte>, filled: set<Byte>)
    requires line != [] && NEWLINE !in line
    ensures |ReadChannels(Channels(line), Listed([], filled)).indices| <= 253
  {
    ListedOnce(Channels(line), Listed([], filled));
    AtMost253(ReadChannels(Channels(line), Listed([], filled)));
  }

  /** Every example read from text survives the cache, however many namespaces it has. */
  lemma TextSurvivesCache(line: seq<Byte>, filled: set<Byte>, ns: seq<Namespace>, M: nat, rest: seq<Byte>)
    requires line != [] && NEWLINE !in line
    requires var listed := ReadChannels(Channels(line), Listed([], filled)).indices;
      |ns| == |listed| && forall n :: 0 <= n < |ns| ==> ns[n].index == listed[n]
    requires 0 < M <= WORD && Cacheable(ns)
    ensures DecodeSection(EncodeSection(ns) + rest, M)
         == Some(Section(MaskedAll(ns, M), AllNonDecreasing(ns), |EncodeSection(ns)|))
  {
    CountFits(line, filled);
    SectionRoundTrip(ns, M, rest);
  }
}
