/**
 * The Ecosystem page of App.tsx: ventures split into the primary stack
 * and the extended ecosystem, the "live" status badge, and the page state
 * (`expandedSlug`, `showSecondary`) driven by the URL hash. `VENTURES`
 * and `PRIMARY_VENTURES` are parameters.
 */
module Ecosystem {
  import opened Wrappers
  import opened JsArray
  import opened JsString

  /** The `Venture` record. */
  datatype Venture = Venture(
    name: string, role: string, description: string, ecosystemRole: string,
    systemRelationship: string, operatingConstraints: string, link: Option<string>,
    status: string, logo: string, slug: string)

  /** `VENTURES.filter(v => PRIMARY_VENTURES.includes(v.name))`. */
  function PrimaryVentures(ventures: seq<Venture>, primaryNames: seq<string>): seq<Venture> {
    Keep(ventures, (v: Venture) => v.name in primaryNames)
  }

  /** `VENTURES.filter(v => !PRIMARY_VENTURES.includes(v.name))`. */
  function SecondaryVentures(ventures: seq<Venture>, primaryNames: seq<string>): seq<Venture> {
    Keep(ventures, (v: Venture) => v.name !in primaryNames)
  }

  /**
   * The two lists partition the ventures: each keeps the original order,
   * a venture is primary exactly when its name is listed, and together
   * they hold every venture exactly as often as the input does.
   */
  lemma VenturePartition(ventures: seq<Venture>, primaryNames: seq<string>)
    ensures IsSubsequence(PrimaryVentures(ventures, primaryNames), ventures)
    ensures IsSubsequence(SecondaryVentures(ventures, primaryNames), ventures)
    ensures multiset(PrimaryVentures(ventures, primaryNames)) + multiset(SecondaryVentures(ventures, primaryNames))
      == multiset(ventures)
    ensures forall v :: v in ventures ==> (v in PrimaryVentures(ventures, primaryNames) <==> v.name in primaryNames)
    ensures forall v :: v in ventures ==> (v in SecondaryVentures(ventures, primaryNames) <==> v.name !in primaryNames)
  {
    var p := (v: Venture) => v.name in primaryNames;
    var q := (v: Venture) => v.name !in primaryNames;
    KeepIsSubsequence(ventures, p);
    KeepIsSubsequence(ventures, q);
    KeepPartition(ventures, p, q);
    forall v | v in ventures
      ensures v in PrimaryVentures(ventures, primaryNames) <==> v.name in primaryNames
      ensures v in SecondaryVentures(ventures, primaryNames) <==> v.name !in primaryNames
    {
      KeepMembership(ventures, p, v);
      KeepMembership(ventures, q, v);
    }
  }

  /** `status.includes('PRODUCTION') || status.includes('EXECUTION')`: the green "live" badge. */
  function IsLive(status: string): (r: bool)
    ensures r <==> (exists i :: OccursAt(status, "PRODUCTION", i)) || (exists i :: OccursAt(status, "EXECUTION", i))
  {
    Includes(status, "PRODUCTION") || Includes(status, "EXECUTION")
  }

  /** A status with neither a 'D' nor an 'X' can contain neither word, so its badge is not live. */
  lemma NotLiveWithout(status: string)
    requires 'D' !in status && 'X' !in status
    ensures !IsLive(status)
  {
    forall i | OccursAt(status, "PRODUCTION", i) ensures false {
      OccurrenceChars(status, "PRODUCTION", i, 3);
    }
    forall i | OccursAt(status, "EXECUTION", i) ensures false {
      OccurrenceChars(status, "EXECUTION", i, 1);
    }
  }

  /** The statuses in `VENTURES` that show the green "live" badge. */
  lemma LiveStatuses()
    ensures IsLive("ENTERPRISE EXECUTION")
    ensures IsLive("PRODUCTION · SMB")
    ensures IsLive("INTERNAL · GOVERNED EXECUTION")
  {
    assert OccursAt("ENTERPRISE EXECUTION", "EXECUTION", 11);
    assert OccursAt("PRODUCTION · SMB", "PRODUCTION", 0);
    assert OccursAt("INTERNAL · GOVERNED EXECUTION", "EXECUTION", 20);
  }

  /** "OWNERSHIP · ARCHITECTURE" shares letters with "PRODUCTION" but contains neither word: amber badge. */
  lemma OwnershipStatusNotLive()
    ensures !IsLive("OWNERSHIP · ARCHITECTURE")
  {
    NotLiveWithout("OWNERSHIP · ARCHITECTURE");
  }

  /** The slug an URL hash selects: none for an empty hash, else the hash with its first '#' removed. */
  function SlugFromHash(hash: string): Option<string> {
    if hash == "" then None else Some(RemoveFirst(hash, '#'))
  }

  /** Navigating to `#slug` selects exactly `slug`, even when the slug itself contains '#'. */
  lemma SlugFromHashRoundTrip(slug: string)
    ensures SlugFromHash("#" + slug) == Some(slug)
  {
    assert ("#" + slug)[0] == '#';
  }

  /** A hash selects a slug only when it is non-empty; the selected slug is the hash minus one '#'. */
  lemma SlugFromHashSpec(hash: string)
    ensures SlugFromHash(hash).None? <==> hash == ""
    ensures '#' !in hash ==> SlugFromHash(hash) == (if hash == "" then None else Some(hash))
    ensures '#' in hash ==>
      SlugFromHash(hash) == Some(hash[..FirstIndex(hash, '#')] + hash[FirstIndex(hash, '#') + 1..])
  {
  }

  /** The hash targets a venture of the extended ecosystem (`secondaryVentures.some(v => v.slug === slug)`). */
  function HashOpensSecondary(ventures: seq<Venture>, primaryNames: seq<string>, hash: string): (r: bool)
    ensures r <==> hash != "" && exists v :: v in SecondaryVentures(ventures, primaryNames) &&
                                             v.slug == RemoveFirst(hash, '#')
  {
    var secondary := SecondaryVentures(ventures, primaryNames);
    if hash == "" then false
    else
      var opens := Any(secondary, (v: Venture) => v.slug == RemoveFirst(hash, '#'));
      assert opens ==> exists i :: 0 <= i < |secondary| && secondary[i] in secondary &&
                                   secondary[i].slug == RemoveFirst(hash, '#');
      opens
  }

  /** The ventures shown expanded when `expandedSlug` is `expanded`. */
  function ExpandedIn(ventures: seq<Venture>, expanded: Option<string>): seq<Venture> {
    Keep(ventures, (v: Venture) => expanded == Some(v.slug))
  }

  /** Slugs identify ventures: no two share one. */
  predicate UniqueSlugs(ventures: seq<Venture>) {
    forall i, j :: 0 <= i < j < |ventures| ==> ventures[i].slug != ventures[j].slug
  }

  /** With unique slugs, at most one venture is expanded, whatever the state. */
  lemma {:induction false} AtMostOneExpanded(ventures: seq<Venture>, expanded: Option<string>)
    requires UniqueSlugs(ventures)
    ensures |ExpandedIn(ventures, expanded)| <= 1
  {
    var p := (v: Venture) => expanded == Some(v.slug);
    if ventures != [] && p(ventures[0]) {
      KeepNone(ventures[1..], p);
    } else if ventures != [] {
      AtMostOneExpanded(ventures[1..], expanded);
    }
  }

  /** With unique slugs, selecting a listed venture's slug expands that venture and nothing else. */
  lemma {:induction false} ExpandedIsSelected(ventures: seq<Venture>, i: nat)
    requires UniqueSlugs(ventures) && i < |ventures|
    ensures ExpandedIn(ventures, Some(ventures[i].slug)) == [ventures[i]]
  {
    var p := (v: Venture) => Some(ventures[i].slug) == Some(v.slug);
    if i == 0 {
      KeepNone(ventures[1..], p);
    } else {
      ExpandedIsSelected(ventures[1..], i - 1);
      var q := (v: Venture) => Some(ventures[1..][i - 1].slug) == Some(v.slug);
      assert Keep(ventures[1..], p) == Keep(ventures[1..], q);
    }
  }

  /**
   * The ventures whose detail panel is on screen, in render order: the
   * expanded primary venture, then the expanded secondary one, which is
   * rendered only while the extended ecosystem is open.
   */
  function ShownExpanded(ventures: seq<Venture>, primaryNames: seq<string>,
                         expanded: Option<string>, showSecondary: bool): seq<Venture>
  {
    ExpandedIn(PrimaryVentures(ventures, primaryNames), expanded) +
    (if showSecondary then ExpandedIn(SecondaryVentures(ventures, primaryNames), expanded) else [])
  }

  /** The expanded primary and expanded secondary ventures together are exactly the expanded ventures. */
  lemma ExpandedSplit(ventures: seq<Venture>, primaryNames: seq<string>, expanded: Option<string>)
    ensures multiset(ExpandedIn(PrimaryVentures(ventures, primaryNames), expanded)) +
            multiset(ExpandedIn(SecondaryVentures(ventures, primaryNames), expanded))
            == multiset(ExpandedIn(ventures, expanded))
  {
    var primary := (v: Venture) => v.name in primaryNames;
    var secondary := (v: Venture) => v.name !in primaryNames;
    var selected := (v: Venture) => expanded == Some(v.slug);
    var ps, ss := PrimaryVentures(ventures, primaryNames), SecondaryVentures(ventures, primaryNames);
    forall v
      ensures multiset(ExpandedIn(ps, expanded))[v] + multiset(ExpandedIn(ss, expanded))[v]
              == multiset(ExpandedIn(ventures, expanded))[v]
    {
      KeepCount(ps, selected, v);
      KeepCount(ss, selected, v);
      KeepCount(ventures, primary, v);
      KeepCount(ventures, secondary, v);
      KeepCount(ventures, selected, v);
    }
    assert multiset(ExpandedIn(ps, expanded)) + multiset(ExpandedIn(ss, expanded))
           == multiset(ExpandedIn(ventures, expanded));
  }

  /**
   * A venture's panel is on screen exactly when it is listed, its slug is
   * the expanded one, and it is primary or the extended ecosystem is open.
   */
  lemma ShownExpandedMembership(ventures: seq<Venture>, primaryNames: seq<string>,
                                expanded: Option<string>, showSecondary: bool, v: Venture)
    ensures v in ShownExpanded(ventures, primaryNames, expanded, showSecondary) <==>
      v in ventures && expanded == Some(v.slug) && (v.name in primaryNames || showSecondary)
  {
    var selected := (w: Venture) => expanded == Some(w.slug);
    KeepMembership(PrimaryVentures(ventures, primaryNames), selected, v);
    KeepMembership(SecondaryVentures(ventures, primaryNames), selected, v);
    KeepMembership(ventures, (w: Venture) => w.name in primaryNames, v);
    KeepMembership(ventures, (w: Venture) => w.name !in primaryNames, v);
  }

  /** With unique slugs, at most one detail panel is on screen, whether or not the extended ecosystem is open. */
  lemma ShownExpandedAtMostOne(ventures: seq<Venture>, primaryNames: seq<string>,
                               expanded: Option<string>, showSecondary: bool)
    requires UniqueSlugs(ventures)
    ensures |ShownExpanded(ventures, primaryNames, expanded, showSecondary)| <= 1
  {
    var a := ExpandedIn(PrimaryVentures(ventures, primaryNames), expanded);
    var b := ExpandedIn(SecondaryVentures(ventures, primaryNames), expanded);
    ExpandedSplit(ventures, primaryNames, expanded);
    AtMostOneExpanded(ventures, expanded);
    assert |multiset(a) + multiset(b)| == |a| + |b|;
  }

  /**
   * The live state of one EcosystemPage: the location hash, the single
   * expanded slug, and whether the extended ecosystem is open.
   */
  class EcosystemPage {
    const ventures: seq<Venture>
    const primaryNames: seq<string>
    var hash: string
    var expandedSlug: Option<string>
    var showSecondary: bool

    /** Between events, the expanded slug is the one the current hash selects. */
    ghost predicate Valid()
      reads this
    {
      expandedSlug == SlugFromHash(hash)
    }

    /** Mounting: both states start empty, then the hash effect runs once for the initial location. */
    constructor (ventures: seq<Venture>, primaryNames: seq<string>, hash: string)
      ensures Valid()
      ensures this.ventures == ventures && this.primaryNames == primaryNames && this.hash == hash
      ensures expandedSlug == SlugFromHash(hash)
      ensures showSecondary == HashOpensSecondary(ventures, primaryNames, hash)
    {
      this.ventures := ventures;
      this.primaryNames := primaryNames;
      this.hash := hash;
      expandedSlug := None;
      showSecondary := false;
      new;
      OnLocationChange(hash);
    }

    /**
     * The hash effect: a non-empty hash expands the venture it names and
     * opens the extended ecosystem when that venture is secondary; it
     * never closes it. An empty hash collapses everything.
     */
    method OnLocationChange(newHash: string)
      modifies this
      ensures Valid()
      ensures hash == newHash
      ensures expandedSlug == SlugFromHash(newHash)
      ensures showSecondary == (old(showSecondary) || HashOpensSecondary(ventures, primaryNames, newHash))
    {
      hash := newHash;
      if newHash != "" {
        var slug := RemoveFirst(newHash, '#');
        expandedSlug := Some(slug);
        if HashOpensSecondary(ventures, primaryNames, newHash) {
          showSecondary := true;
        }
      } else {
        expandedSlug := None;
      }
    }

    /**
     * `toggleExpand`: clicking the open venture navigates to the bare
     * page (collapsing it); clicking any other navigates to `#slug`
     * (expanding it instead). Navigation reruns the hash effect.
     */
    method ToggleExpand(slug: string)
      modifies this
      ensures Valid()
      ensures old(expandedSlug) == Some(slug) ==>
        hash == "" && expandedSlug == None && showSecondary == old(showSecondary)
      ensures old(expandedSlug) != Some(slug) ==>
        hash == "#" + slug && expandedSlug == Some(slug) &&
        showSecondary == (old(showSecondary) || exists v :: v in SecondaryVentures(ventures, primaryNames) && v.slug == slug)
    {
      if expandedSlug == Some(slug) {
        OnLocationChange("");
      } else {
        SlugFromHashRoundTrip(slug);
        OnLocationChange("#" + slug);
      }
    }

    /** The "Extended Ecosystem" header: opens or closes the secondary list. */
    method ToggleSecondary()
      requires Valid()
      modifies this`showSecondary
      ensures Valid()
      ensures showSecondary == !old(showSecondary)
    {
      showSecondary := !showSecondary;
    }

    /** Whether `venture`'s card shows its detail panel (`expandedSlug === venture.slug`). */
    function IsExpanded(venture: Venture): bool
      reads this
    {
      expandedSlug == Some(venture.slug)
    }

    /** The ventures whose detail panel is on screen, primary before secondary. */
    function Expanded(): (r: seq<Venture>)
      reads this
      ensures UniqueSlugs(ventures) ==> |r| <= 1
      ensures forall v :: v in r <==> v in ventures && IsExpanded(v) && (v.name in primaryNames || showSecondary)
    {
      var e, open := expandedSlug, showSecondary;
      var r := ShownExpanded(ventures, primaryNames, e, open);
      assert UniqueSlugs(ventures) ==> |r| <= 1 by {
        if UniqueSlugs(ventures) { ShownExpandedAtMostOne(ventures, primaryNames, e, open); }
      }
      assert forall v :: v in r <==> v in ventures && IsExpanded(v) && (v.name in primaryNames || open) by {
        forall v ensures v in r <==> v in ventures && IsExpanded(v) && (v.name in primaryNames || open) {
          ShownExpandedMembership(ventures, primaryNames, e, open, v);
        }
      }
      r
    }
  }
}
