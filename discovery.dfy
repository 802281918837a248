/**
 * Gallery asset discovery (discoverGalleryImages in js/main.js): probe the
 * fifteen candidate files `image_01.jpg` .. `image_15.jpg` in order, keep
 * those whose probe succeeds, and fall back to three fixed entries when
 * none does. The HEAD request is an injected predicate on the URL: it is
 * true exactly when the response is ok, and a request that throws reads as
 * false, as the script's catch does.
 */
module Discovery {

  /** One gallery entry: the image URL and its alternative text. */
  datatype Image = Image(src: string, alt: string)

  /** The candidate file names, in probe order. */
  const Candidates: seq<string> := [
    "image_01.jpg", "image_02.jpg", "image_03.jpg", "image_04.jpg", "image_05.jpg",
    "image_06.jpg", "image_07.jpg", "image_08.jpg", "image_09.jpg", "image_10.jpg",
    "image_11.jpg", "image_12.jpg", "image_13.jpg", "image_14.jpg", "image_15.jpg"
  ]

  /** The entries used when no candidate exists. */
  const Fallback: seq<Image> := [
    Image("./images/image_01.jpg", "Elegant klassisk möbel i vardagsrumsmiljö"),
    Image("./images/image_02.jpg", "Hantverkare arbetar med varsam möbelrestaurering"),
    Image("./images/image_03.jpg", "Detaljvy av klassisk möbeldesign och hantverk")
  ]

  const AltPrefix: string := "Klassisk möbel och design från Bock & Lintott - "

  /** The URL a candidate is probed at and served from. */
  function ImagePath(filename: string): string {
    "./images/" + filename
  }

  /** Whether `pat` occurs in `s` starting at position `k`. */
  predicate OccursAt(s: string, pat: string, k: int) {
    0 <= k && k + |pat| <= |s| && s[k..k + |pat|] == pat
  }

  /** String.prototype.replace with a string pattern: the first occurrence
      of `pat`, scanning from the left, is replaced by `rep`. JavaScript also
      expands `$` patterns (such as `$&` and `$$`) in the replacement; this
      function does not, which makes no difference for the replacements used
      here ("" and "Bild "), as they contain no `$`. */
  function ReplaceFirst(s: string, pat: string, rep: string): string
    decreases |s|
  {
    if |s| < |pat| then s
    else if s[..|pat|] == pat then rep + s[|pat|..]
    else [s[0]] + ReplaceFirst(s[1..], pat, rep)
  }

  /** Without an occurrence, replace leaves the string as it is. */
  lemma {:induction false} ReplaceFirstNoMatch(s: string, pat: string, rep: string)
    requires forall k :: !OccursAt(s, pat, k)
    ensures ReplaceFirst(s, pat, rep) == s
    decreases |s|
  {
    if |s| >= |pat| {
      assert !OccursAt(s, pat, 0);
      forall k ensures !OccursAt(s[1..], pat, k) {
        if OccursAt(s[1..], pat, k) {
          assert s[1..][k..k + |pat|] == s[k + 1..k + 1 + |pat|];
          assert OccursAt(s, pat, k + 1);
        }
      }
      ReplaceFirstNoMatch(s[1..], pat, rep);
    }
  }

  /** Replace substitutes `rep` for the leftmost occurrence and keeps the rest. */
  lemma {:induction false} ReplaceFirstAtFirstMatch(s: string, pat: string, rep: string, k: nat)
    requires OccursAt(s, pat, k)
    requires forall j :: 0 <= j < k ==> !OccursAt(s, pat, j)
    ensures ReplaceFirst(s, pat, rep) == s[..k] + rep + s[k + |pat|..]
    decreases k
  {
    if k > 0 {
      var t := s[1..];
      assert !OccursAt(s, pat, 0);
      assert |s| >= |pat| && s[..|pat|] != pat;
      assert ReplaceFirst(s, pat, rep) == [s[0]] + ReplaceFirst(t, pat, rep);
      assert t[k - 1..k - 1 + |pat|] == s[k..k + |pat|];
      forall j | 0 <= j < k - 1 ensures !OccursAt(t, pat, j) {
        assert t[j..j + |pat|] == s[j + 1..j + 1 + |pat|];
        assert !OccursAt(s, pat, j + 1);
      }
      ReplaceFirstAtFirstMatch(t, pat, rep, k - 1);
      assert [s[0]] + t[..k - 1] == s[..k];
      assert t[k - 1 + |pat|..] == s[k + |pat|..];
    } else {
      assert s[..|pat|] == pat;
    }
  }

  /** The label embedded in a found image's alt text: `image_07.jpg` reads `Bild 07`. */
  function Label(filename: string): string {
    ReplaceFirst(ReplaceFirst(filename, ".jpg", ""), "image_", "Bild ")
  }

  /** The entry pushed for a candidate whose probe succeeded. */
  function FoundImage(filename: string): Image {
    Image(ImagePath(filename), AltPrefix + Label(filename))
  }

  /** Two decimal digits, zero padded, of a number below 100. */
  function TwoDigits(k: nat): (d: string)
    requires k < 100
  {
    [('0' as int + k / 10) as char, ('0' as int + k % 10) as char]
  }

  /** The candidate list follows the naming convention image_NN.jpg, NN being
      the 1-based probe position. */
  lemma CandidatesFollowNamingConvention()
    ensures |Candidates| == 15
    ensures forall k | 0 <= k < 15 :: Candidates[k] == "image_" + TwoDigits(k + 1) + ".jpg"
  {
  }

  /** The alt text of a found candidate names its 1-based position: `Bild NN`. */
  lemma FoundAltNamesPosition(k: nat)
    requires k < |Candidates|
    ensures FoundImage(Candidates[k]).alt == AltPrefix + "Bild " + TwoDigits(k + 1)
    ensures FoundImage(Candidates[k]).src == "./images/" + Candidates[k]
  {
    CandidatesFollowNamingConvention();
    var d := TwoDigits(k + 1);
    var s := "image_" + d + ".jpg";
    assert s[6..8] == d;
    assert OccursAt(s, ".jpg", 8) by { assert s[8..12] == ".jpg"; }
    forall j | 0 <= j < 8 ensures !OccursAt(s, ".jpg", j) {
      assert s[j] != '.';
    }
    ReplaceFirstAtFirstMatch(s, ".jpg", "", 8);
    assert ReplaceFirst(s, ".jpg", "") == "image_" + d by {
      assert s[..8] == "image_" + d;
    }
    var t := "image_" + d;
    assert OccursAt(t, "image_", 0) by { assert t[0..6] == "image_"; }
    ReplaceFirstAtFirstMatch(t, "image_", "Bild ", 0);
    assert t[6..] == d;
  }

  /** The images found among `names`, in probe order (the spec of the loop). */
  function Found(names: seq<string>, probe: string -> bool): seq<Image>
  {
    if names == [] then []
    else
      var last := names[|names| - 1];
      Found(names[..|names| - 1], probe) + (if probe(ImagePath(last)) then [FoundImage(last)] else [])
  }

  /** Probing two runs of candidates one after the other finds the first
      run's images first: the result keeps probe order. */
  lemma {:induction false} FoundAppend(a: seq<string>, b: seq<string>, probe: string -> bool)
    ensures Found(a + b, probe) == Found(a, probe) + Found(b, probe)
    decreases |b|
  {
    if b == [] {
      assert a + b == a;
    } else {
      var b' := b[..|b| - 1];
      assert (a + b)[..|a + b| - 1] == a + b';
      FoundAppend(a, b', probe);
    }
  }

  /** An entry is found exactly when some candidate's probe succeeded and it
      is that candidate's entry; at most one entry per candidate. */
  lemma {:induction false} FoundMembers(names: seq<string>, probe: string -> bool, img: Image)
    ensures |Found(names, probe)| <= |names|
    ensures img in Found(names, probe) <==>
      exists k :: 0 <= k < |names| && probe(ImagePath(names[k])) && img == FoundImage(names[k])
    decreases |names|
  {
    if names != [] {
      var init := names[..|names| - 1];
      FoundMembers(init, probe, img);
      if img in Found(names, probe) && img !in Found(init, probe) {
        assert probe(ImagePath(names[|names| - 1])) && img == FoundImage(names[|names| - 1]);
      }
      if exists k :: 0 <= k < |names| && probe(ImagePath(names[k])) && img == FoundImage(names[k]) {
        var k :| 0 <= k < |names| && probe(ImagePath(names[k])) && img == FoundImage(names[k]);
        if k < |names| - 1 {
          assert init[k] == names[k];
        }
      }
    }
  }

  /** Nothing is found exactly when every probe fails. */
  lemma {:induction false} FoundEmptyIff(names: seq<string>, probe: string -> bool)
    ensures Found(names, probe) == [] <==> forall k :: 0 <= k < |names| ==> !probe(ImagePath(names[k]))
    decreases |names|
  {
    if names != [] {
      var init := names[..|names| - 1];
      FoundEmptyIff(init, probe);
      if Found(names, probe) == [] {
        forall k | 0 <= k < |names| ensures !probe(ImagePath(names[k])) {
          if k < |names| - 1 {
            assert init[k] == names[k];
          }
        }
      }
    }
  }

  /** A found entry is never mistaken for a fallback one: their alt texts differ. */
  lemma FoundIsNotFallback(names: seq<string>, probe: string -> bool)
    ensures Found(names, probe) != Fallback
  {
    FoundMembers(names, probe, Fallback[0]);
  }

  /** discoverGalleryImages: the probe loop followed by the fallback. */
  method DiscoverGalleryImages(probe: string -> bool) returns (images: seq<Image>)
    ensures images != [] && |images| <= |Candidates|
    ensures images == Fallback <==> forall k :: 0 <= k < |Candidates| ==> !probe(ImagePath(Candidates[k]))
    ensures images != Fallback ==> images == Found(Candidates, probe)
  {
    var found: seq<Image> := [];
    for i := 0 to |Candidates|
      invariant found == Found(Candidates[..i], probe)
    {
      var filename := Candidates[i];
      if probe(ImagePath(filename)) {
        found := found + [FoundImage(filename)];
      }
      assert Candidates[..i + 1][..i] == Candidates[..i];
    }
    assert Candidates[..|Candidates|] == Candidates;
    FoundEmptyIff(Candidates, probe);
    FoundMembers(Candidates, probe, Fallback[0]);
    FoundIsNotFallback(Candidates, probe);
    if |found| == 0 {
      found := found + Fallback;
    }
    images := found;
  }

}
