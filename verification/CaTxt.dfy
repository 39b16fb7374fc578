/** CA certificates cut into framed TXT strings by the server, and put together again by the extension. */
module CaTxt {
  import opened Basics

  const Prefix: string := "rolodex-ca:v1:"
  const ChunkSize: nat := 180

  datatype Chunk = Chunk(kind: string, index: nat, total: nat, data: string)

  // ---- publishing ----

  function Digit(d: nat): char
    requires d < 10
  {
    ('0' as int + d) as char
  }

  function Decimal(n: nat): string {
    if n < 10 then [Digit(n)] else Decimal(n / 10) + [Digit(n % 10)]
  }

  /** The text in pieces of `size`, the last one shorter; no text, no pieces. */
  function Pieces(text: string, size: nat): (r: seq<string>)
    requires size > 0
    ensures text != [] ==> r != []
    decreases |text|
  {
    if text == [] then [] else if |text| <= size then [text] else [text[..size]] + Pieces(text[size..], size)
  }

  function Frame(c: Chunk): string {
    Prefix + c.kind + ":" + Decimal(c.index) + "/" + Decimal(c.total) + ":" + c.data
  }

  function Nth(kind: string, text: string, size: nat, i: nat): Chunk
    requires size > 0 && 1 <= i <= |Pieces(text, size)|
  {
    Chunk(kind, i, |Pieces(text, size)|, Pieces(text, size)[i - 1])
  }

  method Publish(kind: string, text: string, size: nat) returns (strings: seq<string>)
    requires size > 0
    ensures |strings| == |Pieces(text, size)|
    ensures forall i :: 1 <= i <= |strings| ==> strings[i - 1] == Frame(Nth(kind, text, size, i))
  {
    var pieces := Pieces(text, size);
    strings := [];
    for i := 0 to |pieces|
      invariant |strings| == i
      invariant forall j :: 1 <= j <= i ==> strings[j - 1] == Frame(Nth(kind, text, size, j))
    {
      strings := strings + [Frame(Chunk(kind, i + 1, |pieces|, pieces[i]))];
    }
  }

  // ---- reading one string ----

  function Split(s: string, sep: char): (r: seq<string>)
    ensures r != []
  {
    if s == [] then [""]
    else
      var rest := Split(s[1..], sep);
      if s[0] == sep then [""] + rest else [[s[0]] + rest[0]] + rest[1..]
  }

  predicate IsDigit(c: char) {
    '0' <= c <= '9'
  }

  function Value(s: string): nat
    requires forall c :: c in s ==> IsDigit(c)
  {
    if s == [] then 0
    else
      assert IsDigit(s[|s| - 1]);
      10 * Value(s[..|s| - 1]) + (s[|s| - 1] as int - '0' as int)
  }

  function Number(s: string): Option<nat> {
    if forall c :: c in s ==> IsDigit(c) then Some(Value(s)) else None
  }

  function Parse(s: string): Option<Chunk> {
    if !(Prefix <= s) then None
    else
      var parts := Split(s, ':');
      if |parts| != 5 then None
      else
        var place := Split(parts[3], '/');
        if |place| < 2 then None
        else
          var i, n := Number(place[0]), Number(place[1]);
          if i.Some? && n.Some? && 1 <= i.value <= n.value then Some(Chunk(parts[2], i.value, n.value, parts[4]))
          else None
  }

  lemma {:induction false} PartsArePlain(s: string, sep: char)
    ensures forall part :: part in Split(s, sep) ==> sep !in part
  {
    if s != [] {
      PartsArePlain(s[1..], sep);
      var rest := Split(s[1..], sep);
      assert rest[0] in rest && forall part :: part in rest[1..] ==> part in rest;
    }
  }

  /** Whatever string it is given: a place that is not from 1 to the total is no chunk, and no part holds a colon. */
  lemma ParsedIsInRange(s: string)
    requires Parse(s).Some?
    ensures Prefix <= s && 1 <= Parse(s).value.index <= Parse(s).value.total
    ensures ':' !in Parse(s).value.kind && ':' !in Parse(s).value.data
  {
    PartsArePlain(s, ':');
  }

  lemma {:induction false} SplitPlain(s: string, sep: char)
    requires sep !in s
    ensures Split(s, sep) == [s]
  {
    if s != [] {
      SplitPlain(s[1..], sep);
      assert s == [s[0]] + s[1..];
    }
  }

  lemma {:induction false} SplitAt(a: string, sep: char, rest: string)
    requires sep !in a
    ensures Split(a + [sep] + rest, sep) == [a] + Split(rest, sep)
  {
    var s := a + [sep] + rest;
    if a == [] {
      assert s[1..] == rest;
    } else {
      SplitAt(a[1..], sep, rest);
      assert s[1..] == a[1..] + [sep] + rest;
      assert a == [a[0]] + a[1..];
    }
  }

  lemma {:induction false} DecimalReads(n: nat)
    ensures Decimal(n) != [] && forall c :: c in Decimal(n) ==> IsDigit(c)
    ensures Value(Decimal(n)) == n
  {
    if n < 10 {
      assert Decimal(n)[..0] == [];
    } else {
      DecimalReads(n / 10);
      assert Decimal(n)[..|Decimal(n)| - 1] == Decimal(n / 10);
    }
  }

  lemma PlaceReads(i: nat, n: nat)
    ensures Split(Decimal(i) + "/" + Decimal(n), '/') == [Decimal(i), Decimal(n)]
    ensures ':' !in Decimal(i) + "/" + Decimal(n)
    ensures Number(Decimal(i)) == Some(i) && Number(Decimal(n)) == Some(n)
  {
    DecimalReads(i);
    DecimalReads(n);
    SplitAt(Decimal(i), '/', Decimal(n));
    SplitPlain(Decimal(n), '/');
  }

  lemma SplitFive(a: string, b: string, c: string, d: string, e: string, sep: char)
    requires sep !in a && sep !in b && sep !in c && sep !in d && sep !in e
    ensures Split(a + [sep] + (b + [sep] + (c + [sep] + (d + [sep] + e))), sep) == [a, b, c, d, e]
  {
    SplitPlain(e, sep);
    SplitAt(d, sep, e);
    SplitAt(c, sep, d + [sep] + e);
    SplitAt(b, sep, c + [sep] + (d + [sep] + e));
    SplitAt(a, sep, b + [sep] + (c + [sep] + (d + [sep] + e)));
  }

  lemma FrameIsFive(c: Chunk)
    ensures var place := Decimal(c.index) + "/" + Decimal(c.total);
      Frame(c) == "rolodex-ca" + [':'] + ("v1" + [':'] + (c.kind + [':'] + (place + [':'] + c.data)))
  {
  }

  /** Reading a frame gives back the chunk it was made from. */
  lemma ParseFrame(c: Chunk)
    requires ':' !in c.kind && ':' !in c.data && 1 <= c.index <= c.total
    ensures Parse(Frame(c)) == Some(c)
  {
    var place := Decimal(c.index) + "/" + Decimal(c.total);
    PlaceReads(c.index, c.total);
    FrameIsFive(c);
    assert ':' !in "rolodex-ca" && ':' !in "v1";
    SplitFive("rolodex-ca", "v1", c.kind, place, c.data, ':');
    assert Prefix <= Frame(c);
  }

  // ---- putting the strings together ----

  /** What has been seen of one kind: the first total announced, the last data for each index. */
  datatype Gathered = Gathered(total: nat, chunks: map<nat, string>)

  function Add(seen: map<string, Gathered>, c: Chunk): map<string, Gathered> {
    var was := if c.kind in seen then seen[c.kind] else Gathered(c.total, map[]);
    seen[c.kind := was.(chunks := was.chunks[c.index := c.data])]
  }

  function Gather(strings: seq<string>): map<string, Gathered> {
    if strings == [] then map[]
    else
      var seen, c := Gather(strings[..|strings| - 1]), Parse(strings[|strings| - 1]);
      if c.Some? then Add(seen, c.value) else seen
  }

  /** Chunks 1 to `n` in order; a hole reads as JavaScript prints it. */
  function Text(chunks: map<nat, string>, n: nat): string {
    if n == 0 then "" else Text(chunks, n - 1) + if n in chunks then chunks[n] else "undefined"
  }

  predicate Complete(g: Gathered) {
    |g.chunks| == g.total
  }

  method Collect(strings: seq<string>) returns (seen: map<string, Gathered>)
    ensures seen == Gather(strings)
  {
    seen := map[];
    for i := 0 to |strings|
      invariant seen == Gather(strings[..i])
    {
      assert strings[..i + 1][..i] == strings[..i];
      var c := Parse(strings[i]);
      if c.Some? {
        seen := Add(seen, c.value);
      }
    }
    assert strings[..|strings|] == strings;
  }

  /** `reassembleCaTxt`: the text of every kind seen, or nothing when any kind is incomplete. */
  method Reassemble(strings: seq<string>) returns (r: Option<map<string, string>>)
    ensures r.Some? <==> forall k :: k in Gather(strings) ==> Complete(Gather(strings)[k])
    ensures r.Some? ==> r.value.Keys == Gather(strings).Keys
    ensures r.Some? ==> forall k :: k in r.value ==>
      r.value[k] == Text(Gather(strings)[k].chunks, Gather(strings)[k].total)
  {
    var seen := Collect(strings);
    var out: map<string, string>, left := map[], seen.Keys;
    while left != {}
      invariant left <= seen.Keys && out.Keys == seen.Keys - left
      invariant forall k :: k in out ==> Complete(seen[k]) && out[k] == Text(seen[k].chunks, seen[k].total)
      decreases |left|
    {
      var k :| k in left;
      if !Complete(seen[k]) {
        return None;
      }
      var text := Join(seen[k]);
      out, left := out[k := text], left - {k};
    }
    return Some(out);
  }

  method Join(g: Gathered) returns (text: string)
    ensures text == Text(g.chunks, g.total)
  {
    text := "";
    for i := 0 to g.total
      invariant text == Text(g.chunks, i)
    {
      text := text + if i + 1 in g.chunks then g.chunks[i + 1] else "undefined";
    }
  }

  // ---- the round trip ----

  /** Strings as the server publishes them for `texts`, by kind. */
  ghost predicate Published(texts: map<string, string>, size: nat, s: string)
    requires size > 0
  {
    exists k, i :: IsNth(texts, size, s, k, i)
  }

  predicate IsNth(texts: map<string, string>, size: nat, s: string, k: string, i: nat)
    requires size > 0
  {
    k in texts && 1 <= i <= |Pieces(texts[k], size)| && s == Frame(Nth(k, texts[k], size, i))
  }

  predicate Foreign(s: string) {
    !(Prefix <= s)
  }

  predicate Plain(texts: map<string, string>) {
    forall k :: k in texts ==> ':' !in k && ':' !in texts[k]
  }

  lemma {:induction false} PiecesPlain(text: string, size: nat, i: nat)
    requires size > 0 && i < |Pieces(text, size)| && ':' !in text
    ensures ':' !in Pieces(text, size)[i]
    decreases |text|
  {
    if |text| > size && i > 0 {
      PiecesPlain(text[size..], size, i - 1);
    }
  }

  lemma PublishedParses(texts: map<string, string>, size: nat, s: string, k: string, i: nat)
    requires size > 0 && Plain(texts) && IsNth(texts, size, s, k, i)
    ensures Parse(s) == Some(Nth(k, texts[k], size, i))
  {
    PiecesPlain(texts[k], size, i - 1);
    ParseFrame(Nth(k, texts[k], size, i));
  }

  /** Everything gathered was published: totals and data alike. */
  ghost predicate PartOf(texts: map<string, string>, size: nat, seen: map<string, Gathered>)
    requires size > 0
  {
    && (forall k :: k in seen ==> k in texts && texts[k] != [] && seen[k].total == |Pieces(texts[k], size)|)
    && (forall k, i :: k in seen && i in seen[k].chunks ==>
          1 <= i <= |Pieces(texts[k], size)| && seen[k].chunks[i] == Pieces(texts[k], size)[i - 1])
  }

  lemma AddIsPart(texts: map<string, string>, size: nat, seen: map<string, Gathered>, k: string, i: nat)
    requires size > 0 && PartOf(texts, size, seen) && k in texts && 1 <= i <= |Pieces(texts[k], size)|
    ensures PartOf(texts, size, Add(seen, Nth(k, texts[k], size, i)))
  {
  }

  /** Whatever the order, what has been gathered is part of what was published, and misses nothing received. */
  lemma {:induction false} GatheredIsPublished(texts: map<string, string>, size: nat, strings: seq<string>)
    requires size > 0 && Plain(texts)
    requires forall s :: s in strings ==> Foreign(s) || Published(texts, size, s)
    ensures PartOf(texts, size, Gather(strings))
    ensures forall s, k, i :: s in strings && IsNth(texts, size, s, k, i) ==>
      k in Gather(strings) && i in Gather(strings)[k].chunks
  {
    if strings != [] {
      var front, last := strings[..|strings| - 1], strings[|strings| - 1];
      GatheredIsPublished(texts, size, front);
      assert strings == front + [last];
      if !Foreign(last) {
        var k, i :| IsNth(texts, size, last, k, i);
        PublishedParses(texts, size, last, k, i);
        AddIsPart(texts, size, Gather(front), k, i);
        forall k', i' | IsNth(texts, size, last, k', i') ensures k' == k && i' == i {
          PublishedParses(texts, size, last, k', i');
        }
      } else {
        assert forall k, i :: !IsNth(texts, size, last, k, i);
      }
    }
  }

  lemma {:induction false} OneToN(n: nat, keys: set<nat>)
    requires forall i :: i in keys <==> 1 <= i <= n
    ensures |keys| == n
  {
    if n == 0 {
      assert keys == {};
    } else {
      OneToN(n - 1, keys - {n});
    }
  }

  function Flatten(pieces: seq<string>): string {
    if pieces == [] then [] else pieces[0] + Flatten(pieces[1..])
  }

  lemma {:induction false} FlattenAppend(pieces: seq<string>, last: string)
    ensures Flatten(pieces + [last]) == Flatten(pieces) + last
  {
    if pieces != [] {
      FlattenAppend(pieces[1..], last);
      assert (pieces + [last])[1..] == pieces[1..] + [last];
    }
  }

  lemma {:induction false} FlattenPieces(text: string, size: nat)
    requires size > 0
    ensures Flatten(Pieces(text, size)) == text
    decreases |text|
  {
    if |text| > size {
      FlattenPieces(text[size..], size);
      assert Pieces(text, size)[1..] == Pieces(text[size..], size);
    }
  }

  lemma {:induction false} TextIsFlatten(chunks: map<nat, string>, pieces: seq<string>)
    requires forall i :: 1 <= i <= |pieces| ==> i in chunks && chunks[i] == pieces[i - 1]
    ensures Text(chunks, |pieces|) == Flatten(pieces)
  {
    if pieces != [] {
      var front, last := pieces[..|pieces| - 1], pieces[|pieces| - 1];
      TextIsFlatten(chunks, front);
      FlattenAppend(front, last);
      assert pieces == front + [last];
    }
  }

  /**
   * Any arrangement of the published strings, repeated or not and mixed with any foreign strings, gathers to exactly
   * what was published, and `Reassemble` then returns every text that was not empty.
   */
  lemma RoundTrip(texts: map<string, string>, size: nat, strings: seq<string>)
    requires size > 0 && Plain(texts)
    requires forall s :: s in strings ==> Foreign(s) || Published(texts, size, s)
    requires forall s :: Published(texts, size, s) ==> s in strings
    ensures forall k :: k in Gather(strings) <==> k in texts && texts[k] != []
    ensures forall k :: k in Gather(strings) ==>
      Complete(Gather(strings)[k]) && Text(Gather(strings)[k].chunks, Gather(strings)[k].total) == texts[k]
  {
    GatheredIsPublished(texts, size, strings);
    var seen := Gather(strings);
    forall k, i | k in texts && 1 <= i <= |Pieces(texts[k], size)| ensures k in seen && i in seen[k].chunks {
      assert IsNth(texts, size, Frame(Nth(k, texts[k], size, i)), k, i);
    }
    forall k | k in texts && texts[k] != [] ensures k in seen {
      assert IsNth(texts, size, Frame(Nth(k, texts[k], size, 1)), k, 1);
    }
    forall k | k in seen ensures Complete(seen[k]) && Text(seen[k].chunks, seen[k].total) == texts[k] {
      OneToN(|Pieces(texts[k], size)|, seen[k].chunks.Keys);
      TextIsFlatten(seen[k].chunks, Pieces(texts[k], size));
      FlattenPieces(texts[k], size);
    }
  }

  // ---- the 255-byte limit ----

  function Pow10(n: nat): (r: nat)
    ensures r > 0
  {
    if n == 0 then 1 else 10 * Pow10(n - 1)
  }

  lemma {:induction false} DecimalLength(n: nat, k: nat)
    requires k > 0
    ensures |Decimal(n)| <= k <==> n < Pow10(k)
  {
    if n < 10 {
      assert Pow10(k) == 10 * Pow10(k - 1) && Pow10(k - 1) > 0;
    } else if k > 1 {
      DecimalLength(n / 10, k - 1);
      assert n < Pow10(k) <==> n / 10 < Pow10(k - 1);
    } else {
      assert Pow10(1) == 10 * Pow10(0);
    }
  }

  lemma {:induction false} PieceLength(text: string, size: nat, i: nat)
    requires size > 0 && i < |Pieces(text, size)|
    ensures 0 < |Pieces(text, size)[i]| <= size && (i + 1 < |Pieces(text, size)| ==> |Pieces(text, size)[i]| == size)
    decreases |text|
  {
    if |text| > size && i > 0 {
      PieceLength(text[size..], size, i - 1);
    }
  }

  /** Cut at 180, no published string outgrows a TXT character-string while the count stays under 10^23. */
  lemma FramesFit(kind: string, text: string, i: nat)
    requires kind in {"root", "intermediate"} && 1 <= i <= |Pieces(text, ChunkSize)| < Pow10(23)
    ensures |Frame(Nth(kind, text, ChunkSize, i))| <= 255
    ensures |Pieces(text, ChunkSize)[i - 1]| <= 180
    ensures i < |Pieces(text, ChunkSize)| ==> |Pieces(text, ChunkSize)[i - 1]| == 180
  {
    DecimalLength(i, 23);
    DecimalLength(|Pieces(text, ChunkSize)|, 23);
    PieceLength(text, ChunkSize, i - 1);
  }
}
