/**
 The audit log's sanitizer: what it lets through, which values it leaves as they are, and what reading
 a stored payload back gives.
 */
module AuditSanitizer {

  // ---------------------------------------------------------------------------------------------
  // Values
  // ---------------------------------------------------------------------------------------------

  datatype Scalar = Null | Undefined | Boolean(truth: bool) | Number(digits: string)

  /** `toISOString` gives 24 or 27 characters (section 21.4.1.32 of ECMA-262). */
  type IsoText = s: string | |s| <= 27 witness ""

  /**
   What `sanitize` sees when it looks at a value, by the first branch that matches. A value is only ever
   looked at, so values may be cyclic, and `toJSON` may produce new objects forever.
   */
  datatype View<+N> =
    | Date(iso: IsoText)
    | BigInt(value: int)
    | Array(items: seq<N>)
    | WithToJson(json: N)
    | Object(entries: seq<(string, N)>)
    | Text(text: string)
    | Plain(scalar: Scalar)

  /** What `sanitize` returns. */
  datatype Out = Leaf(scalar: Scalar) | Str(text: string) | List(items: seq<Out>) | Record(entries: seq<(string, Out)>)

  function Look(o: Out): View<Out> {
    match o
    case Leaf(s) => Plain(s)
    case Str(t) => Text(t)
    case List(items) => Array(items)
    case Record(entries) => Object(entries)
  }

  /** `BigInt.prototype.toString`. */
  function Decimal(n: int): string {
    if n < 0 then "-" + Digits(-n) else Digits(n)
  }

  function Digits(n: nat): string {
    if n < 10 then [DIGITS[n]] else Digits(n / 10) + [DIGITS[n % 10]]
  }

  const DIGITS := "0123456789"

  // ---------------------------------------------------------------------------------------------
  // Sensitive keys
  // ---------------------------------------------------------------------------------------------

  const WORDS := ["password", "hash", "token", "secret", "authorization", "cookie", "credential", "session"]

  /** The `i` flag: without the `u` flag only ASCII letters meet their other case in these words. */
  function Fold(c: char): char {
    if 'A' <= c <= 'Z' then c - 'A' + 'a' else c
  }

  predicate OccursAt(s: string, word: string, i: nat) {
    i + |word| <= |s| && forall k | 0 <= k < |word| :: Fold(s[i + k]) == word[k]
  }

  predicate Occurs(s: string, word: string) {
    exists i | 0 <= i <= |s| :: OccursAt(s, word, i)
  }

  /** What `.` does not match. */
  predicate LineTerminator(c: char) {
    c == '\n' || c == '\r' || c == '\U{2028}' || c == '\U{2029}'
  }

  predicate PrivateKeyAt(s: string, i: nat) {
    && OccursAt(s, "private", i)
    && (OccursAt(s, "key", i + 7) || (i + 7 < |s| && !LineTerminator(s[i + 7]) && OccursAt(s, "key", i + 8)))
  }

  predicate Sensitive(key: string) {
    || (exists w | w in WORDS :: Occurs(key, w))
    || (exists i | 0 <= i <= |key| :: PrivateKeyAt(key, i))
  }

  /** A letter of either case, or the character itself. */
  predicate SameLetter(c: char, w: char) {
    c == w || ('a' <= w <= 'z' && 'A' <= c <= 'Z' && c as int + 32 == w as int)
  }

  predicate Spells(m: string, word: string) {
    |m| == |word| && forall k | 0 <= k < |m| :: SameLetter(m[k], word[k])
  }

  /** The texts the pattern matches. */
  predicate IsSecret(m: string) {
    || Spells(m, "password") || Spells(m, "hash") || Spells(m, "token") || Spells(m, "secret")
    || Spells(m, "authorization") || Spells(m, "cookie") || Spells(m, "credential") || Spells(m, "session")
    || Spells(m, "privatekey")
    || (|m| == 11 && Spells(m[..7], "private") && m[7] !in "\n\r\U{2028}\U{2029}" && Spells(m[8..], "key"))
  }

  predicate LowerCase(word: string) {
    forall k | 0 <= k < |word| :: 'a' <= word[k] <= 'z'
  }

  lemma AtSpells(s: string, word: string, i: nat)
    requires LowerCase(word)
    ensures OccursAt(s, word, i) <==> i + |word| <= |s| && Spells(s[i..i + |word|], word)
  {
    if i + |word| <= |s| {
      forall k | 0 <= k < |word| ensures Fold(s[i + k]) == word[k] <==> SameLetter(s[i..i + |word|][k], word[k]) {
        assert s[i..i + |word|][k] == s[i + k] && 'a' <= word[k] <= 'z';
      }
    }
  }

  /** The two spellings of a private key. */
  lemma PrivateSpells(s: string, i: nat)
    ensures PrivateKeyAt(s, i) <==>
      || (i + 10 <= |s| && Spells(s[i..i + 10], "privatekey"))
      || (i + 11 <= |s| && Spells(s[i..i + 11][..7], "private") && s[i..i + 11][7] !in "\n\r\U{2028}\U{2029}"
          && Spells(s[i..i + 11][8..], "key"))
  {
    JoinedSpells(s, i);
    SeparatedSpells(s, i);
  }

  lemma JoinedSpells(s: string, i: nat)
    ensures OccursAt(s, "private", i) && OccursAt(s, "key", i + 7) <==> i + 10 <= |s| && Spells(s[i..i + 10], "privatekey")
  {
    assert "privatekey" == "private" + "key";
    SplitOccurs(s, "private", "key", i);
    AtSpells(s, "privatekey", i);
  }

  lemma SeparatedSpells(s: string, i: nat)
    ensures (OccursAt(s, "private", i) && i + 7 < |s| && !LineTerminator(s[i + 7]) && OccursAt(s, "key", i + 8)) <==>
      (i + 11 <= |s| && Spells(s[i..i + 11][..7], "private") && s[i..i + 11][7] !in "\n\r\U{2028}\U{2029}"
       && Spells(s[i..i + 11][8..], "key"))
  {
    AtSpells(s, "private", i);
    AtSpells(s, "key", i + 8);
    if i + 11 <= |s| {
      var m := s[i..i + 11];
      assert m[..7] == s[i..i + 7] && m[7] == s[i + 7] && m[8..] == s[i + 8..i + 8 + 3];
      NoTerminator(s[i + 7]);
    }
  }

  lemma NoTerminator(c: char)
    ensures LineTerminator(c) <==> c in "\n\r\U{2028}\U{2029}"
  {
  }

  lemma SplitOccurs(s: string, a: string, b: string, i: nat)
    ensures OccursAt(s, a + b, i) <==> OccursAt(s, a, i) && OccursAt(s, b, i + |a|)
  {
    assert forall k | 0 <= k < |a| :: (a + b)[k] == a[k];
    assert forall k | 0 <= k < |b| :: (a + b)[|a| + k] == b[k];
    if OccursAt(s, a + b, i) {
      forall k | 0 <= k < |b| ensures Fold(s[i + |a| + k]) == b[k] {
        assert Fold(s[i + (|a| + k)]) == (a + b)[|a| + k];
      }
    }
    if OccursAt(s, a, i) && OccursAt(s, b, i + |a|) {
      forall k | 0 <= k < |a + b| ensures Fold(s[i + k]) == (a + b)[k] {
        if k >= |a| { assert Fold(s[i + |a| + (k - |a|)]) == b[k - |a|]; }
      }
    }
  }

  predicate HasSecret(key: string) {
    exists i, j | 0 <= i <= j <= |key| :: IsSecret(key[i..j])
  }

  lemma WordIsSecret(key: string, word: string, i: nat)
    requires word in WORDS && OccursAt(key, word, i)
    ensures HasSecret(key)
  {
    AtSpells(key, word, i);
    assert IsSecret(key[i..i + |word|]);
  }

  lemma SecretIsWord(key: string, i: nat, j: nat, word: string)
    requires i <= j <= |key| && word in WORDS && Spells(key[i..j], word)
    ensures Sensitive(key)
  {
    AtSpells(key, word, i);
    assert key[i..j] == key[i..i + |word|];
    assert Occurs(key, word);
  }

  lemma SecretIsPrivate(key: string, i: nat, j: nat)
    requires i <= j <= |key|
    requires Spells(key[i..j], "privatekey")
      || (j == i + 11 && Spells(key[i..j][..7], "private") && key[i..j][7] !in "\n\r\U{2028}\U{2029}" && Spells(key[i..j][8..], "key"))
    ensures Sensitive(key)
  {
    PrivateSpells(key, i);
    assert PrivateKeyAt(key, i);
  }

  /** A key is sensitive exactly when, in any case of its letters, it contains one of the nine patterns. */
  lemma SensitiveExactly(key: string)
    ensures Sensitive(key) <==> HasSecret(key)
  {
    if w: string :| w in WORDS && Occurs(key, w) {
      var i :| 0 <= i <= |key| && OccursAt(key, w, i);
      WordIsSecret(key, w, i);
    } else if i :| 0 <= i <= |key| && PrivateKeyAt(key, i) {
      PrivateSpells(key, i);
      assert (i + 10 <= |key| && IsSecret(key[i..i + 10])) || (i + 11 <= |key| && IsSecret(key[i..i + 11]));
    }
    if i, j :| 0 <= i <= j <= |key| && IsSecret(key[i..j]) { SecretIsSensitive(key, i, j); }
  }

  lemma SecretIsSensitive(key: string, i: nat, j: nat)
    requires i <= j <= |key| && IsSecret(key[i..j])
    ensures Sensitive(key)
  {
    var words := ["password", "hash", "token", "secret", "authorization", "cookie", "credential", "session"];
    assert words[0] == "password" && words[1] == "hash" && words[2] == "token" && words[3] == "secret";
    assert words[4] == "authorization" && words[5] == "cookie" && words[6] == "credential" && words[7] == "session";
    if k :| 0 <= k < |words| && Spells(key[i..j], words[k]) {
      assert words == WORDS && words[k] in words;
      SecretIsWord(key, i, j, words[k]);
    } else {
      SecretIsPrivate(key, i, j);
    }
  }

  lemma OccursShifted(a: string, s: string, b: string, word: string, i: nat)
    requires OccursAt(s, word, i)
    ensures OccursAt(a + s + b, word, |a| + i)
  {
    forall k | 0 <= k < |word| ensures Fold((a + s + b)[|a| + i + k]) == word[k] {
      assert (a + s + b)[|a| + i + k] == s[i + k];
    }
  }

  /** A key stays sensitive whatever surrounds it. */
  lemma SensitiveAnywhere(a: string, key: string, b: string)
    requires Sensitive(key)
    ensures Sensitive(a + key + b)
  {
    var longer := a + key + b;
    if w: string :| w in WORDS && Occurs(key, w) {
      var i :| 0 <= i <= |key| && OccursAt(key, w, i);
      OccursShifted(a, key, b, w, i);
      assert Occurs(longer, w);
    } else {
      var i :| 0 <= i <= |key| && PrivateKeyAt(key, i);
      OccursShifted(a, key, b, "private", i);
      if OccursAt(key, "key", i + 7) {
        OccursShifted(a, key, b, "key", i + 7);
      } else {
        OccursShifted(a, key, b, "key", i + 8);
        assert longer[|a| + i + 7] == key[i + 7];
      }
      assert PrivateKeyAt(longer, |a| + i);
    }
  }

  // ---------------------------------------------------------------------------------------------
  // The sanitizer
  // ---------------------------------------------------------------------------------------------

  const MAX_DEPTH := 6
  const MAX_ITEMS := 100
  const MAX_TEXT := 4000
  const TEXT_MARK := "...[TRUNCATED]"
  const DEPTH_MARK := "[TRUNCATED_DEPTH]"

  /** `slice(0, 100)`. */
  function First<T>(s: seq<T>): seq<T> {
    if |s| <= MAX_ITEMS then s else s[..MAX_ITEMS]
  }

  function Visible<T>(entries: seq<(string, T)>): (r: seq<(string, T)>)
    ensures |r| <= |entries|
  {
    if entries == [] then []
    else
      var last := entries[|entries| - 1];
      Visible(entries[..|entries| - 1]) + if Sensitive(last.0) then [] else [last]
  }

  lemma {:induction false} VisibleIsKept<T>(entries: seq<(string, T)>, e: (string, T))
    ensures e in Visible(entries) <==> e in entries && !Sensitive(e.0)
  {
    if entries != [] {
      var rest, last := entries[..|entries| - 1], entries[|entries| - 1];
      VisibleIsKept(rest, e);
      assert entries == rest + [last];
    }
  }

  function Cut(text: string): string {
    if |text| > MAX_TEXT then text[..MAX_TEXT] + TEXT_MARK else text
  }

  function Sanitize<N>(view: N -> View<N>, v: N, depth: nat): Out
    decreases MAX_DEPTH + 1 - depth
  {
    if depth > MAX_DEPTH then Str(DEPTH_MARK)
    else
      match view(v)
      case Date(iso) => Str(iso)
      case BigInt(n) => Str(Decimal(n))
      case Array(items) =>
        var kept := First(items);
        List(seq(|kept|, i requires 0 <= i < |kept| => Sanitize(view, kept[i], depth + 1)))
      case WithToJson(json) => Sanitize(view, json, depth + 1)
      case Object(entries) =>
        var kept := Visible(First(entries));
        Record(seq(|kept|, i requires 0 <= i < |kept| => (kept[i].0, Sanitize(view, kept[i].1, depth + 1))))
      case Text(t) => Str(Cut(t))
      case Plain(s) => Leaf(s)
  }

  // ---------------------------------------------------------------------------------------------
  // No sensitive key at any depth
  // ---------------------------------------------------------------------------------------------

  predicate Clean(o: Out) {
    match o
    case Leaf(_) => true
    case Str(_) => true
    case List(items) => forall i | 0 <= i < |items| :: Clean(items[i])
    case Record(entries) => forall i | 0 <= i < |entries| :: !Sensitive(entries[i].0) && Clean(entries[i].1)
  }

  lemma {:induction false} OutputIsClean<N>(view: N -> View<N>, v: N, depth: nat)
    ensures Clean(Sanitize(view, v, depth))
    decreases MAX_DEPTH + 1 - depth
  {
    if depth <= MAX_DEPTH {
      var out := Sanitize(view, v, depth);
      match view(v)
      case Array(items) =>
        forall i | 0 <= i < |out.items| ensures Clean(out.items[i]) {
          OutputIsClean(view, First(items)[i], depth + 1);
        }
      case WithToJson(json) => OutputIsClean(view, json, depth + 1);
      case Object(entries) =>
        var kept := Visible(First(entries));
        forall i | 0 <= i < |out.entries| ensures !Sensitive(out.entries[i].0) && Clean(out.entries[i].1) {
          VisibleIsKept(First(entries), kept[i]);
          OutputIsClean(view, kept[i].1, depth + 1);
        }
      case _ =>
    }
  }

  /** Nothing else is lost: of the first hundred entries exactly the non-sensitive ones come out. */
  lemma EntriesExactly<N>(view: N -> View<N>, v: N, depth: nat, key: string, o: Out)
    requires depth <= MAX_DEPTH && view(v).Object?
    ensures (key, o) in Sanitize(view, v, depth).entries <==>
      !Sensitive(key) && exists i | 0 <= i < |view(v).entries| && i < 100 ::
        view(v).entries[i].0 == key && o == Sanitize(view, view(v).entries[i].1, depth + 1)
  {
    FirstHundredExactly(view, v, depth, key, o);
    var all, entries := view(v).entries, First(view(v).entries);
    assert forall i | 0 <= i < |entries| :: entries[i] == all[i];
    assert |entries| == if |all| <= 100 then |all| else 100;
    if e :| e in entries && e.0 == key && o == Sanitize(view, e.1, depth + 1) {
      var i :| 0 <= i < |entries| && entries[i] == e;
      assert all[i] == e;
    }
    if i :| 0 <= i < |all| && i < 100 && all[i].0 == key && o == Sanitize(view, all[i].1, depth + 1) {
      assert entries[i] == all[i] && entries[i] in entries;
    }
  }

  lemma FirstHundredExactly<N>(view: N -> View<N>, v: N, depth: nat, key: string, o: Out)
    requires depth <= MAX_DEPTH && view(v).Object?
    ensures (key, o) in Sanitize(view, v, depth).entries <==>
      !Sensitive(key) && exists e | e in First(view(v).entries) :: e.0 == key && o == Sanitize(view, e.1, depth + 1)
  {
    var entries := First(view(v).entries);
    var kept := Visible(entries);
    var out := Sanitize(view, v, depth).entries;
    if (key, o) in out {
      var i :| 0 <= i < |out| && out[i] == (key, o);
      VisibleIsKept(entries, kept[i]);
    }
    if !Sensitive(key) && exists e | e in entries :: e.0 == key && o == Sanitize(view, e.1, depth + 1) {
      var e :| e in entries && e.0 == key && o == Sanitize(view, e.1, depth + 1);
      VisibleIsKept(entries, e);
      var i :| 0 <= i < |kept| && kept[i] == e;
      assert out[i] == (key, o);
    }
  }

  // ---------------------------------------------------------------------------------------------
  // Values the sanitizer leaves as they are
  // ---------------------------------------------------------------------------------------------

  /** Normal form at a depth, defined on the value alone. */
  predicate Normal(o: Out, depth: nat)
    decreases o
  {
    if depth > MAX_DEPTH then o == Str(DEPTH_MARK)
    else
      match o
      case Leaf(_) => true
      case Str(t) => NormalText(t)
      case List(items) => |items| <= MAX_ITEMS && forall i | 0 <= i < |items| :: Normal(items[i], depth + 1)
      case Record(entries) =>
        |entries| <= MAX_ITEMS
        && forall i | 0 <= i < |entries| :: !Sensitive(entries[i].0) && Normal(entries[i].1, depth + 1)
  }

  /** Short, or already cut. */
  predicate NormalText(t: string) {
    |t| <= MAX_TEXT || (|t| == MAX_TEXT + |TEXT_MARK| && t[MAX_TEXT..] == TEXT_MARK)
  }

  lemma CutExactly(t: string)
    ensures Cut(t) == t <==> NormalText(t)
    ensures NormalText(Cut(t))
  {
    if |t| > MAX_TEXT {
      assert t == t[..MAX_TEXT] + t[MAX_TEXT..];
      assert Cut(t)[MAX_TEXT..] == TEXT_MARK;
    }
  }

  predicate AllVisible<T>(entries: seq<(string, T)>) {
    forall i | 0 <= i < |entries| :: !Sensitive(entries[i].0)
  }

  lemma AllVisibleLonger<T>(rest: seq<(string, T)>, last: (string, T))
    ensures AllVisible(rest + [last]) <==> AllVisible(rest) && !Sensitive(last.0)
  {
    var entries := rest + [last];
    assert forall i | 0 <= i < |rest| :: entries[i] == rest[i];
    assert entries[|rest|] == last;
  }

  lemma {:induction false} VisibleExactly<T>(entries: seq<(string, T)>)
    ensures |Visible(entries)| == |entries| <==> AllVisible(entries)
    ensures |Visible(entries)| == |entries| ==> Visible(entries) == entries
  {
    if entries != [] {
      var rest, last := entries[..|entries| - 1], entries[|entries| - 1];
      VisibleExactly(rest);
      AllVisibleLonger(rest, last);
      assert entries == rest + [last];
    }
  }

  /** A value is left as it is exactly when it is in normal form at that depth. */
  lemma {:induction false} FixedExactly(o: Out, depth: nat)
    ensures Sanitize(Look, o, depth) == o <==> Normal(o, depth)
    decreases o
  {
    if depth <= MAX_DEPTH {
      match o
      case Leaf(_) =>
      case Str(t) => CutExactly(t);
      case List(items) => ListFixedExactly(o, depth);
      case Record(entries) => RecordFixedExactly(o, depth);
    }
  }

  lemma {:induction false} ListFixedExactly(o: Out, depth: nat)
    requires o.List? && depth <= MAX_DEPTH
    ensures Sanitize(Look, o, depth) == o <==> Normal(o, depth)
    decreases o, 0
  {
    forall i | 0 <= i < |o.items| ensures Sanitize(Look, o.items[i], depth + 1) == o.items[i] <==> Normal(o.items[i], depth + 1) {
      FixedExactly(o.items[i], depth + 1);
    }
    var out := Sanitize(Look, o, depth).items;
    if |o.items| <= MAX_ITEMS {
      assert out == o.items <==> forall i | 0 <= i < |o.items| :: out[i] == o.items[i];
    }
  }

  lemma {:induction false} RecordFixedExactly(o: Out, depth: nat)
    requires o.Record? && depth <= MAX_DEPTH
    ensures Sanitize(Look, o, depth) == o <==> Normal(o, depth)
    decreases o, 0
  {
    var entries := o.entries;
    VisibleExactly(entries);
    if |entries| <= MAX_ITEMS && Visible(entries) == entries {
      RecordFixedParts(o, depth);
      RecordNormalParts(o, depth);
      forall i | 0 <= i < |entries|
        ensures Sanitize(Look, entries[i].1, depth + 1) == entries[i].1 <==> Normal(entries[i].1, depth + 1)
      {
        FixedExactly(entries[i].1, depth + 1);
      }
    } else {
      RecordCut(o, depth);
    }
  }

  lemma RecordNormalParts(o: Out, depth: nat)
    requires o.Record? && depth <= MAX_DEPTH && |o.entries| <= MAX_ITEMS && AllVisible(o.entries)
    ensures Normal(o, depth) <==> forall i | 0 <= i < |o.entries| :: Normal(o.entries[i].1, depth + 1)
  {
  }

  lemma RecordCut(o: Out, depth: nat)
    requires o.Record? && depth <= MAX_DEPTH && (|o.entries| > MAX_ITEMS || Visible(o.entries) != o.entries)
    ensures Sanitize(Look, o, depth) != o && !Normal(o, depth)
  {
    VisibleExactly(o.entries);
    assert |Sanitize(Look, o, depth).entries| == |Visible(First(o.entries))| != |o.entries|;
  }

  lemma RecordFixedParts(o: Out, depth: nat)
    requires o.Record? && depth <= MAX_DEPTH && |o.entries| <= MAX_ITEMS && Visible(o.entries) == o.entries
    ensures Sanitize(Look, o, depth) == o <==>
      forall i | 0 <= i < |o.entries| :: Sanitize(Look, o.entries[i].1, depth + 1) == o.entries[i].1
  {
    var out := Sanitize(Look, o, depth).entries;
    if i :| 0 <= i < |o.entries| && Sanitize(Look, o.entries[i].1, depth + 1) != o.entries[i].1 {
      assert out[i].1 != o.entries[i].1;
    } else {
      assert out == o.entries;
    }
  }

  lemma {:induction false} NormalShallower(o: Out, depth: nat, depth': nat)
    requires depth' <= depth && Normal(o, depth)
    ensures Normal(o, depth')
    decreases o
  {
    if depth <= MAX_DEPTH {
      match o
      case List(items) =>
        forall i | 0 <= i < |items| ensures Normal(items[i], depth' + 1) { NormalShallower(items[i], depth + 1, depth' + 1); }
      case Record(entries) =>
        forall i | 0 <= i < |entries| ensures Normal(entries[i].1, depth' + 1) {
          NormalShallower(entries[i].1, depth + 1, depth' + 1);
        }
      case _ =>
    }
  }

  // ---------------------------------------------------------------------------------------------
  // Sanitizing twice
  // ---------------------------------------------------------------------------------------------

  /** A bigint whose text is over the limit: the sanitizer passes it on uncut. */
  predicate Huge(n: int) {
    |Decimal(n)| > MAX_TEXT
  }

  /** The sanitizer, starting at this depth, comes to a huge bigint. */
  predicate ReachesHuge<N>(view: N -> View<N>, v: N, depth: nat)
    decreases MAX_DEPTH + 1 - depth
  {
    depth <= MAX_DEPTH
    && match view(v)
       case Date(_) => false
       case BigInt(n) => Huge(n)
       case Array(items) => exists i | 0 <= i < |First(items)| :: ReachesHuge(view, First(items)[i], depth + 1)
       case WithToJson(json) => ReachesHuge(view, json, depth + 1)
       case Object(entries) =>
         exists i | 0 <= i < |Visible(First(entries))| :: ReachesHuge(view, Visible(First(entries))[i].1, depth + 1)
       case Text(_) => false
       case Plain(_) => false
  }

  lemma {:induction false} DigitsOnly(n: nat)
    ensures forall i | 0 <= i < |Digits(n)| :: '0' <= Digits(n)[i] <= '9'
  {
    if n >= 10 { DigitsOnly(n / 10); }
  }

  lemma HugeIsNotNormal(n: int)
    ensures NormalText(Decimal(n)) <==> !Huge(n)
  {
    var t := Decimal(n);
    DigitsOnly(if n < 0 then -n else n);
    assert TEXT_MARK[0] == '.';
    assert |t| > MAX_TEXT ==> t[MAX_TEXT..][0] == t[MAX_TEXT] != '.';
  }

  lemma ArrayNormalParts<N>(view: N -> View<N>, v: N, depth: nat)
    requires view(v).Array? && depth <= MAX_DEPTH
    requires var kept := First(view(v).items);
      forall i | 0 <= i < |kept| :: Normal(Sanitize(view, kept[i], depth + 1), depth + 1)
    ensures Normal(Sanitize(view, v, depth), depth)
  {
    var kept, out := First(view(v).items), Sanitize(view, v, depth).items;
    assert forall i | 0 <= i < |kept| :: out[i] == Sanitize(view, kept[i], depth + 1);
  }

  lemma ObjectNormalParts<N>(view: N -> View<N>, v: N, depth: nat)
    requires view(v).Object? && depth <= MAX_DEPTH
    requires var kept := Visible(First(view(v).entries));
      forall i | 0 <= i < |kept| :: Normal(Sanitize(view, kept[i].1, depth + 1), depth + 1)
    ensures Normal(Sanitize(view, v, depth), depth)
  {
    var kept, out := Visible(First(view(v).entries)), Sanitize(view, v, depth).entries;
    forall i | 0 <= i < |kept| ensures !Sensitive(out[i].0) && out[i].1 == Sanitize(view, kept[i].1, depth + 1) {
      VisibleIsKept(First(view(v).entries), kept[i]);
    }
  }

  lemma {:induction false} OutputNormal<N>(view: N -> View<N>, v: N, depth: nat)
    requires !ReachesHuge(view, v, depth)
    ensures Normal(Sanitize(view, v, depth), depth)
    decreases MAX_DEPTH + 1 - depth
  {
    if depth <= MAX_DEPTH {
      match view(v)
      case BigInt(n) => HugeIsNotNormal(n);
      case Text(t) => CutExactly(t);
      case Array(items) =>
        forall i | 0 <= i < |First(items)| ensures Normal(Sanitize(view, First(items)[i], depth + 1), depth + 1) {
          OutputNormal(view, First(items)[i], depth + 1);
        }
        ArrayNormalParts(view, v, depth);
      case WithToJson(json) =>
        OutputNormal(view, json, depth + 1);
        NormalShallower(Sanitize(view, json, depth + 1), depth + 1, depth);
      case Object(_) => ObjectNormal(view, v, depth);
      case _ =>
    }
  }

  lemma {:induction false} ObjectNormal<N>(view: N -> View<N>, v: N, depth: nat)
    requires view(v).Object? && depth <= MAX_DEPTH && !ReachesHuge(view, v, depth)
    ensures Normal(Sanitize(view, v, depth), depth)
    decreases MAX_DEPTH + 1 - depth, 0
  {
    var kept := Visible(First(view(v).entries));
    forall i | 0 <= i < |kept| ensures Normal(Sanitize(view, kept[i].1, depth + 1), depth + 1) {
      OutputNormal(view, kept[i].1, depth + 1);
    }
    ObjectNormalParts(view, v, depth);
  }

  lemma {:induction false} HugeStays<N>(view: N -> View<N>, v: N, depth: nat, depth': nat)
    requires ReachesHuge(view, v, depth) && depth' <= depth
    ensures !Normal(Sanitize(view, v, depth), depth')
    decreases MAX_DEPTH + 1 - depth
  {
    match view(v)
    case BigInt(n) => HugeIsNotNormal(n);
    case Array(_) => HugeStaysInArray(view, v, depth, depth');
    case WithToJson(json) => HugeStays(view, json, depth + 1, depth');
    case Object(_) => HugeStaysInObject(view, v, depth, depth');
    case _ =>
  }

  lemma {:induction false} HugeStaysInArray<N>(view: N -> View<N>, v: N, depth: nat, depth': nat)
    requires view(v).Array? && ReachesHuge(view, v, depth) && depth' <= depth
    ensures !Normal(Sanitize(view, v, depth), depth')
    decreases MAX_DEPTH + 1 - depth, 0
  {
    var kept := First(view(v).items);
    var i :| 0 <= i < |kept| && ReachesHuge(view, kept[i], depth + 1);
    HugeStays(view, kept[i], depth + 1, depth' + 1);
    ItemSpoils(view, v, depth, depth', i);
  }

  lemma ItemSpoils<N>(view: N -> View<N>, v: N, depth: nat, depth': nat, i: nat)
    requires view(v).Array? && depth <= MAX_DEPTH && depth' <= MAX_DEPTH && i < |First(view(v).items)|
    requires !Normal(Sanitize(view, First(view(v).items)[i], depth + 1), depth' + 1)
    ensures !Normal(Sanitize(view, v, depth), depth')
  {
    assert Sanitize(view, v, depth).items[i] == Sanitize(view, First(view(v).items)[i], depth + 1);
  }

  lemma {:induction false} HugeStaysInObject<N>(view: N -> View<N>, v: N, depth: nat, depth': nat)
    requires view(v).Object? && ReachesHuge(view, v, depth) && depth' <= depth
    ensures !Normal(Sanitize(view, v, depth), depth')
    decreases MAX_DEPTH + 1 - depth, 0
  {
    var kept := Visible(First(view(v).entries));
    var i :| 0 <= i < |kept| && ReachesHuge(view, kept[i].1, depth + 1);
    HugeStays(view, kept[i].1, depth + 1, depth' + 1);
    EntrySpoils(view, v, depth, depth', i);
  }

  lemma EntrySpoils<N>(view: N -> View<N>, v: N, depth: nat, depth': nat, i: nat)
    requires view(v).Object? && depth <= MAX_DEPTH && depth' <= MAX_DEPTH && i < |Visible(First(view(v).entries))|
    requires !Normal(Sanitize(view, Visible(First(view(v).entries))[i].1, depth + 1), depth' + 1)
    ensures !Normal(Sanitize(view, v, depth), depth')
  {
    assert Sanitize(view, v, depth).entries[i].1 == Sanitize(view, Visible(First(view(v).entries))[i].1, depth + 1);
  }

  /** Sanitizing again, no deeper, changes nothing exactly when no huge bigint was reached. */
  lemma FixpointExactly<N>(view: N -> View<N>, v: N, depth: nat, depth': nat)
    requires depth' <= depth
    ensures Sanitize(Look, Sanitize(view, v, depth), depth') == Sanitize(view, v, depth) <==> !ReachesHuge(view, v, depth)
  {
    var out := Sanitize(view, v, depth);
    FixedExactly(out, depth');
    if ReachesHuge(view, v, depth) {
      HugeStays(view, v, depth, depth');
    } else {
      OutputNormal(view, v, depth);
      NormalShallower(out, depth, depth');
    }
  }

  // ---------------------------------------------------------------------------------------------
  // Storage
  // ---------------------------------------------------------------------------------------------

  const MAX_STORED := 32768
  const PREVIEW := 30000

  /** `sanitizeForStorage`; `serialize` is `JSON.stringify` and `size` the byte length, as text. */
  function Store<N>(view: N -> View<N>, v: N, serialize: Out -> string, size: string -> string): Out {
    var o := Sanitize(view, v, 0);
    var serialized := serialize(o);
    if |serialized| <= MAX_STORED then o
    else Record([("truncated", Leaf(Boolean(true))), ("originalSizeBytes", Leaf(Number(size(serialized)))),
                 ("preview", Str(serialized[..PREVIEW]))])
  }

  /** `present` sanitizes what it read. */
  function ReadBack(stored: Out): Out {
    Sanitize(Look, stored, 0)
  }

  /** A payload stored whole reads back as stored exactly when no huge bigint was reached. */
  lemma StoredWholeReadsBack<N>(view: N -> View<N>, v: N, serialize: Out -> string, size: string -> string)
    requires |serialize(Sanitize(view, v, 0))| <= MAX_STORED
    ensures ReadBack(Store(view, v, serialize, size)) == Store(view, v, serialize, size) <==> !ReachesHuge(view, v, 0)
  {
    FixpointExactly(view, v, 0, 0);
  }

  /** A payload stored as a preview never reads back as stored: the preview is cut again. */
  lemma PreviewIsCutAgain<N>(view: N -> View<N>, v: N, serialize: Out -> string, size: string -> string)
    requires |serialize(Sanitize(view, v, 0))| > MAX_STORED
    ensures ReadBack(Store(view, v, serialize, size)) != Store(view, v, serialize, size)
  {
    var stored := Store(view, v, serialize, size);
    FixedExactly(stored, 0);
    var preview := stored.entries[2].1;
    assert !NormalText(preview.text);
    assert !Normal(preview, 1);
  }

  // ---------------------------------------------------------------------------------------------
  // A value that sanitizing twice changes
  // ---------------------------------------------------------------------------------------------

  function PowerOfTen(k: nat): (n: nat)
    ensures n > 0
  {
    if k == 0 then 1 else 10 * PowerOfTen(k - 1)
  }

  lemma {:induction false} PowerDigits(k: nat)
    ensures |Digits(PowerOfTen(k))| == k + 1
  {
    if k > 0 {
      PowerDigits(k - 1);
      assert PowerOfTen(k) / 10 == PowerOfTen(k - 1) && PowerOfTen(k) >= 10;
    }
  }

  function AsBigInt(n: int): View<int> {
    BigInt(n)
  }

  /** Every bigint from 10 to the power 4000 is passed on whole by the first sanitizing and cut by the second. */
  lemma HugeBigIntChanges(k: nat)
    requires k >= MAX_TEXT
    ensures var once := Sanitize(AsBigInt, PowerOfTen(k), 0);
      && once == Str(Decimal(PowerOfTen(k))) && |once.text| == k + 1
      && ReadBack(once) == Str(once.text[..MAX_TEXT] + TEXT_MARK) && ReadBack(once) != once
  {
    PowerDigits(k);
    HugeIsNotNormal(PowerOfTen(k));
    CutExactly(Decimal(PowerOfTen(k)));
  }

  // ---------------------------------------------------------------------------------------------
  // The limits
  // ---------------------------------------------------------------------------------------------

  /** What becomes of each kind of value, limits included. */
  lemma KindsExactly<N>(view: N -> View<N>, v: N, depth: nat)
    ensures depth > 6 ==> Sanitize(view, v, depth) == Str("[TRUNCATED_DEPTH]")
    ensures depth <= 6 ==>
      var out := Sanitize(view, v, depth);
      match view(v)
      case Date(iso) => out == Str(iso)
      case BigInt(n) => out == Str(Decimal(n))
      case WithToJson(json) => out == Sanitize(view, json, depth + 1)
      case Plain(scalar) => out == Leaf(scalar)
      case Text(t) => out == Str(if |t| <= 4000 then t else t[..4000] + "...[TRUNCATED]")
      case Array(items) =>
        out.List? && |out.items| == (if |items| <= 100 then |items| else 100)
        && forall i | 0 <= i < |out.items| :: out.items[i] == Sanitize(view, items[i], depth + 1)
      case Object(entries) => out.Record? && |out.entries| <= 100
  {
  }

  /** The number that a text of digits denotes. */
  function Denotes(digits: string): int {
    if digits == [] then 0 else 10 * Denotes(digits[..|digits| - 1]) + (digits[|digits| - 1] as int - '0' as int)
  }

  /** A bigint's text denotes it, without leading zeros. */
  lemma {:induction false} DigitsDenote(n: nat)
    ensures Denotes(Digits(n)) == n && Digits(n) != [] && (n > 0 ==> Digits(n)[0] != '0')
  {
    if n >= 10 {
      DigitsDenote(n / 10);
      assert Digits(n)[..|Digits(n)| - 1] == Digits(n / 10);
      assert DIGITS[n % 10] as int - '0' as int == n % 10;
    } else {
      assert Digits(n)[..0] == [];
      assert DIGITS[n] as int - '0' as int == n;
    }
  }

  /** Up to 32768 characters of JSON are stored whole; of more, the size and the first 30000. */
  lemma StoresExactly<N>(view: N -> View<N>, v: N, serialize: Out -> string, size: string -> string)
    ensures var json := serialize(Sanitize(view, v, 0));
      Store(view, v, serialize, size) ==
        if |json| <= 32768 then Sanitize(view, v, 0)
        else Record([("truncated", Leaf(Boolean(true))), ("originalSizeBytes", Leaf(Number(size(json)))),
                     ("preview", Str(json[..30000]))])
  {
  }
}
