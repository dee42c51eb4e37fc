/** Names of objects in the bucket. */
module StorageKeys {

  /** Everything before the first '/'. */
  function EventOf(key: string): (r: string)
    ensures '/' !in r
    ensures r <= key
  {
    if key == "" || key[0] == '/' then "" else [key[0]] + EventOf(key[1..])
  }

  /** `rsplit(".", 1)[0]`: everything before the last '.', or the whole string. */
  function Stem(s: string): (r: string) {
    if '.' !in s then s
    else if s[|s| - 1] == '.' then s[..|s| - 1]
    else Stem(s[..|s| - 1])
  }

  function OriginalKey(event: string, hash: string, extension: string): (r: string) {
    event + "/originals/" + hash + "." + extension
  }

  function PreviewKey(key: string): (r: string) {
    Stem(key) + ".preview.webp"
  }

  function ThumbKey(key: string): (r: string) {
    Stem(key) + ".thumb.webp"
  }

  /** An event id is a UUID in text form; a hash is hexadecimal; an extension is letters and digits. */
  ghost predicate Plain(s: string) {
    '/' !in s && '.' !in s
  }

  lemma {:induction false} EventOfPrefix(event: string, rest: string)
    requires '/' !in event
    ensures EventOf(event + "/" + rest) == event
    decreases |event|
  {
    var key := event + "/" + rest;
    if event != "" {
      assert key[1..] == event[1..] + "/" + rest;
      EventOfPrefix(event[1..], rest);
    }
  }

  lemma {:induction false} StemDot(a: string, b: string)
    requires '.' !in b
    ensures Stem(a + "." + b) == a
    decreases |b|
  {
    var s := a + "." + b;
    assert s[|a|] == '.';
    if b == "" {
      assert s[..|s| - 1] == a;
    } else {
      assert s[|s| - 1] == b[|b| - 1];
      assert s[..|s| - 1] == a + "." + b[..|b| - 1];
      StemDot(a, b[..|b| - 1]);
    }
  }

  lemma OriginalStem(event: string, hash: string, extension: string)
    requires Plain(event) && Plain(hash) && Plain(extension)
    ensures Stem(OriginalKey(event, hash, extension)) == event + "/originals/" + hash
  {
    StemDot(event + "/originals/" + hash, extension);
    assert OriginalKey(event, hash, extension) == (event + "/originals/" + hash) + "." + extension;
  }

  lemma UnderEvent(event: string, hash: string, suffix: string)
    requires Plain(event)
    ensures EventOf(event + "/originals/" + hash + suffix) == event
  {
    var rest := "originals/" + hash + suffix;
    assert event + "/originals/" + hash + suffix == event + "/" + rest;
    EventOfPrefix(event, rest);
  }

  /** The three keys of a photo all carry its event's id, whatever the hash and extension. */
  lemma KeysCarryEvent(event: string, hash: string, extension: string)
    requires Plain(event) && Plain(hash) && Plain(extension)
    ensures var key := OriginalKey(event, hash, extension);
            EventOf(key) == EventOf(PreviewKey(key)) == EventOf(ThumbKey(key)) == event
  {
    OriginalStem(event, hash, extension);
    UnderEvent(event, hash, "." + extension);
    UnderEvent(event, hash, ".preview.webp");
    UnderEvent(event, hash, ".thumb.webp");
    assert OriginalKey(event, hash, extension) == event + "/originals/" + hash + ("." + extension);
  }

  lemma {:induction false} SplitAtDot(a: string, b: string, c: string, d: string)
    requires '.' !in a && '.' !in c && a + "." + b == c + "." + d
    ensures a == c && b == d
    decreases |a|
  {
    HeadBeforeDot(a, b);
    HeadBeforeDot(c, d);
    if a != "" && c != "" {
      SplitAtDot(a[1..], b, c[1..], d);
    }
  }

  lemma HeadBeforeDot(a: string, b: string)
    ensures (a + "." + b)[0] == if a == "" then '.' else a[0]
    ensures (a + "." + b)[1..] == if a == "" then b else a[1..] + "." + b
  {
  }

  lemma PrefixInjective(p: string, a: string, b: string)
    requires p + a == p + b
    ensures a == b
  {
    assert (p + a)[|p|..] == a && (p + b)[|p|..] == b;
  }

  /** Two uploads of one event share a key exactly when hash and extension agree. */
  lemma OriginalKeyInjective(event: string, h: string, x: string, k: string, y: string)
    requires Plain(h) && Plain(x) && Plain(k) && Plain(y)
    requires OriginalKey(event, h, x) == OriginalKey(event, k, y)
    ensures h == k && x == y
  {
    var p := event + "/originals/";
    assert OriginalKey(event, h, x) == p + (h + "." + x);
    assert OriginalKey(event, k, y) == p + (k + "." + y);
    PrefixInjective(p, h + "." + x, k + "." + y);
    SplitAtDot(h, x, k, y);
  }

  lemma OneDotIsNotTwo(event: string, h: string, x: string, k: string, suffix: string)
    requires Plain(h) && Plain(x) && Plain(k) && '.' in suffix
    ensures OriginalKey(event, h, x) != event + "/originals/" + k + "." + suffix
  {
    var p := event + "/originals/";
    assert OriginalKey(event, h, x) == p + (h + "." + x);
    assert p + k + "." + suffix == p + (k + "." + suffix);
    if OriginalKey(event, h, x) == p + k + "." + suffix {
      PrefixInjective(p, h + "." + x, k + "." + suffix);
      SplitAtDot(h, x, k, suffix);
    }
  }

  lemma NotDerivative(event: string, h: string, x: string, other: string, k: string, suffix: string)
    requires Plain(event) && Plain(h) && Plain(x) && Plain(other) && Plain(k) && '.' in suffix
    ensures OriginalKey(event, h, x) != other + "/originals/" + k + ("." + suffix)
  {
    UnderEvent(event, h, "." + x);
    UnderEvent(other, k, "." + suffix);
    assert OriginalKey(event, h, x) == event + "/originals/" + h + ("." + x);
    if event == other {
      OneDotIsNotTwo(event, h, x, k, suffix);
      assert event + "/originals/" + k + "." + suffix == event + "/originals/" + k + ("." + suffix);
    }
  }

  /** No original is named like a derivative, of the same event or of another one. */
  lemma OriginalsAreNotDerivatives(event: string, h: string, x: string, other: string, k: string, y: string)
    requires Plain(event) && Plain(h) && Plain(x) && Plain(other) && Plain(k) && Plain(y)
    ensures OriginalKey(event, h, x) != PreviewKey(OriginalKey(other, k, y))
    ensures OriginalKey(event, h, x) != ThumbKey(OriginalKey(other, k, y))
  {
    OriginalStem(other, k, y);
    var p, r := "preview.webp", "thumb.webp";
    assert p[7] == '.' && r[5] == '.';
    NotDerivative(event, h, x, other, k, p);
    NotDerivative(event, h, x, other, k, r);
    assert "." + p == ".preview.webp" && "." + r == ".thumb.webp";
  }
}
