/**
 * The text matcher of scanner.py: a `ContentScanner` holds a blocklist and an
 * allowlist; `ScanText` lower-cases the text, deletes every allow-listed
 * phrase from it in list order, and reports each blocklist entry (in its own
 * casing) whose lower-cased form still occurs, without duplicates.
 */
module Scanner {
  import opened Wrappers
  import opened Strings

  /** The parsed contents of the configuration file; a key may be missing. */
  datatype Config = Config(blocklist: Option<seq<string>>, allowlist: Option<seq<string>>)

  /** No element occurs twice. */
  predicate NoDuplicates<T(==)>(s: seq<T>) {
    forall i, j :: 0 <= i < j < |s| ==> s[i] != s[j]
  }

  /** Each phrase lower-cased, in the same order. */
  function LowerAll(phrases: seq<string>): (r: seq<string>)
    ensures |r| == |phrases|
    ensures forall i :: 0 <= i < |r| ==> r[i] == Lower(phrases[i])
  {
    seq(|phrases|, i requires 0 <= i < |phrases| => Lower(phrases[i]))
  }

  /**
   * The working text once every phrase of `allow` has been deleted from it,
   * first phrase first. Nothing changes when no phrase occurs in the text.
   */
  function Edited(t: string, allow: seq<string>): (r: string)
    ensures |r| <= |t|
    ensures (forall a :: a in allow ==> !Contains(t, a)) ==> r == t
  {
    if allow == [] then t
    else ReplaceAll(Edited(t, allow[..|allow| - 1]), allow[|allow| - 1])
  }

  /**
   * The blocklist entries, in blocklist order and original casing, whose
   * lower-cased form occurs in the working text `t`; duplicates kept.
   */
  function Hits(t: string, block: seq<string>): (r: seq<string>)
    ensures |r| <= |block|
    ensures forall p :: p in r <==> p in block && Contains(t, Lower(p))
  {
    if block == [] then []
    else
      var front := block[..|block| - 1];
      var p := block[|block| - 1];
      assert block == front + [p];
      Hits(t, front) + (if Contains(t, Lower(p)) then [p] else [])
  }

  /** `list(set(s))`: the distinct elements of `s`, here kept in order of first occurrence. */
  function Dedup(s: seq<string>): (r: seq<string>)
    ensures NoDuplicates(r)
    ensures forall x :: x in r <==> x in s
  {
    if s == [] then []
    else
      var d := Dedup(s[..|s| - 1]);
      var x := s[|s| - 1];
      assert s == s[..|s| - 1] + [x];
      if x in d then d else d + [x]
  }

  /**
   * What `scan_text` returns for `text`: no term twice, and exactly those
   * blocklist entries whose lower-cased form occurs in the lower-cased,
   * allowlist-edited text. Empty text matches nothing.
   */
  function ScanResult(text: string, block: seq<string>, allow: seq<string>): (r: seq<string>)
    ensures NoDuplicates(r)
    ensures forall p :: p in r <==>
              text != [] && p in block && Contains(Edited(Lower(text), allow), Lower(p))
  {
    if text == [] then [] else Dedup(Hits(Edited(Lower(text), allow), block))
  }

  /** Deleting the phrases of `a1` and then those of `a2` is deleting those of `a1 + a2`. */
  lemma {:induction false} EditedConcat(t: string, a1: seq<string>, a2: seq<string>)
    ensures Edited(t, a1 + a2) == Edited(Edited(t, a1), a2)
  {
    if a2 != [] {
      var front := a2[..|a2| - 1];
      assert (a1 + a2)[..|a1 + a2| - 1] == a1 + front;
      EditedConcat(t, a1, front);
    } else {
      assert a1 + a2 == a1;
    }
  }

  /** The result does not depend on the casing of the text. */
  lemma ScanCaseInsensitive(text: string, block: seq<string>, allow: seq<string>)
    ensures ScanResult(Lower(text), block, allow) == ScanResult(text, block, allow)
  {
    LowerIdempotent(text);
  }

  /** Without an allowlist, an entry is reported exactly when it occurs, ignoring case, in the text. */
  lemma ScanWithoutAllowlist(text: string, block: seq<string>, p: string)
    ensures p in ScanResult(text, block, []) <==>
              text != [] && p in block && Contains(Lower(text), Lower(p))
  {
  }

  /** Growing the blocklist only adds results: the result for `b1 + b2` is the union of the two. */
  lemma BlocklistAppend(text: string, b1: seq<string>, b2: seq<string>, allow: seq<string>, p: string)
    ensures p in ScanResult(text, b1 + b2, allow) <==>
              p in ScanResult(text, b1, allow) || p in ScanResult(text, b2, allow)
  {
  }

  /**
   * Allowlist removal comes before any blocklist test: in "I love discord pie"
   * the allowed phrase "discord pie" is deleted first, and "discord" no longer occurs.
   */
  lemma AllowedPhraseSuppressesMatch(text: string, block: seq<string>, allow: seq<string>)
    requires text == "I love discord pie" && block == ["discord"] && allow == ["discord pie"]
    ensures ScanResult(text, block, allow) == []
  {
    SuppressedText(text, allow);
    assert !Contains("i love ", Lower("discord")) by {
      ContainsSkip("i love ", [], "discord");
      assert "i love " + [] == "i love ";
      assert Lower("discord") == "discord";
    }
    EmptyIffNoMembers(ScanResult(text, block, allow));
  }

  /** The working text of the example above. */
  lemma SuppressedText(text: string, allow: seq<string>)
    requires text == "I love discord pie" && allow == ["discord pie"]
    ensures Edited(Lower(text), allow) == "i love "
  {
    var phrase := "discord pie";
    assert Lower(text) == "i love " + phrase;
    ReplaceAllSkip("i love ", phrase, phrase);
    assert ReplaceAll(phrase, phrase) == [];
  }

  /** A sequence is empty exactly when nothing is a member of it. */
  lemma EmptyIffNoMembers(r: seq<string>)
    ensures r == [] <==> forall p :: p !in r
  {
    if r != [] {
      assert r[0] in r;
    }
  }

  /**
   * Deleting an allowed phrase joins the text on either side of it, which can
   * form a blocklisted term that the original text does not contain.
   */
  lemma AllowedPhraseCanCreateMatch(text: string, block: seq<string>, allow: seq<string>)
    requires text == "disABCcord" && block == ["Discord"] && allow == ["abc"]
    ensures !Contains(Lower(text), "discord")
    ensures ScanResult(text, block, allow) == ["Discord"]
  {
    JoinedText(text, allow);
    UnjoinedText();
    JoinedTextMatches();
    SingletonOfMember(ScanResult(text, block, allow), "Discord");
  }

  /** The working text of the example of `AllowedPhraseCanCreateMatch`. */
  lemma JoinedText(text: string, allow: seq<string>)
    requires text == "disABCcord" && allow == ["abc"]
    ensures Lower(text) == "disabccord"
    ensures Edited(Lower(text), allow) == "discord"
  {
    assert Lower(text) == "disabccord";
    JoinedReplace("disabccord", "abc");
    assert allow[..0] == [];
  }

  /** Removing "abc" from "disabccord" joins "dis" and "cord". */
  lemma JoinedReplace(t: string, p: string)
    requires t == "disabccord" && p == "abc"
    ensures ReplaceAll(t, p) == "discord"
  {
    var head, tail := "dis", "cord";
    assert t == head + (p + tail);
    ReplaceAllSkip(head, p + tail, p);
    assert (p + tail)[|p|..] == tail;
    assert StartsWith(p + tail, p);
    KeptWhole(tail, p);
  }

  /** "cord" does not contain "abc", so removing it changes nothing. */
  lemma KeptWhole(tail: string, p: string)
    requires tail == "cord" && p == "abc"
    ensures ReplaceAll(tail, p) == tail
  {
    ContainsSkip(tail, [], p);
    assert tail + [] == tail;
  }

  /** The blocked term of the example occurs in the edited text. */
  lemma JoinedTextMatches()
    ensures Contains("discord", Lower("Discord"))
  {
    assert Lower("Discord") == "discord";
    assert StartsWith("discord", "discord");
  }

  /** The example's lower-cased text before the edit does not contain the blocked term. */
  lemma UnjoinedText()
    ensures !Contains("disabccord", "discord")
  {
    var t := "disabccord";
    ContainsSkip("isabc", "cord", "discord");
    assert "isabc" + "cord" == t[1..];
    ShorterNotContains("cord", "discord");
    assert t[..7][3] != "discord"[3];
  }

  /** A duplicate-free sequence whose only member is `x` is `[x]`. */
  lemma SingletonOfMember(r: seq<string>, x: string)
    ensures NoDuplicates(r) && x in r && (forall p :: p in r ==> p == x) ==> r == [x]
  {
    if |r| >= 2 {
      assert r[0] in r && r[1] in r;
    }
  }

  class ContentScanner {
    /** Blocked terms, in the casing the configuration gives them. */
    var blocklist: seq<string>
    /** Allowed phrases, lower-cased when loaded. */
    var allowlist: seq<string>

    /** A scanner with empty lists, then loaded from `config` (`None` when the file is missing). */
    constructor (config: Option<Config>)
      ensures config.None? ==> blocklist == [] && allowlist == []
      ensures config.Some? ==> blocklist == config.value.blocklist.GetOr([])
      ensures config.Some? ==> allowlist == LowerAll(config.value.allowlist.GetOr([]))
    {
      blocklist := [];
      allowlist := [];
      new;
      ReloadConfig(config);
    }

    /**
     * Replaces both lists from the configuration; a missing key gives an empty
     * list, and a missing file leaves the lists as they were.
     */
    method ReloadConfig(config: Option<Config>)
      modifies this
      ensures config.None? ==> blocklist == old(blocklist) && allowlist == old(allowlist)
      ensures config.Some? ==> blocklist == config.value.blocklist.GetOr([])
      ensures config.Some? ==> allowlist == LowerAll(config.value.allowlist.GetOr([]))
    {
      if config.Some? {
        blocklist := config.value.blocklist.GetOr([]);
        allowlist := LowerAll(config.value.allowlist.GetOr([]));
      }
    }

    /** The blocklist entries found in `text` once the allowed phrases are deleted. */
    method ScanText(text: string) returns (matches: seq<string>)
      ensures matches == ScanResult(text, blocklist, allowlist)
    {
      if text == [] {
        return [];
      }
      var textLower := Lower(text);
      for i := 0 to |allowlist|
        invariant textLower == Edited(Lower(text), allowlist[..i])
      {
        var allowed := allowlist[i];
        assert allowlist[..i + 1][..i] == allowlist[..i];
        if Contains(textLower, allowed) {
          textLower := ReplaceAll(textLower, allowed);
        }
      }
      assert allowlist[..|allowlist|] == allowlist;
      var found := [];
      for j := 0 to |blocklist|
        invariant found == Hits(textLower, blocklist[..j])
      {
        var pattern := blocklist[j];
        assert blocklist[..j + 1][..j] == blocklist[..j];
        if Contains(textLower, Lower(pattern)) {
          found := found + [pattern];
        }
      }
      assert blocklist[..|blocklist|] == blocklist;
      matches := Dedup(found);
    }

    /** The text is clean exactly when no blocklist entry survives the allowlist edits. */
    method IsClean(text: string) returns (clean: bool)
      ensures clean <==> ScanResult(text, blocklist, allowlist) == []
      ensures clean <==> (text == [] ||
                forall p :: p in blocklist ==> !Contains(Edited(Lower(text), allowlist), Lower(p)))
    {
      var matches := ScanText(text);
      clean := |matches| == 0;
      if !clean {
        assert matches[0] in matches;
      }
    }
  }
}
