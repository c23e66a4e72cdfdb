/** The facility card: its picture, title, verified badge, location line,
    bio, services line and insurance line, as the component builds them
    from a facility. */
module FacilityCard {
  import opened Wrappers
  import Text

  /** A facility as the card receives it; every optional field may be
      missing. */
  datatype Facility = Facility(
    id: string,
    name: string,
    city: Option<string>,
    state: Option<string>,
    services: Option<seq<string>>,
    ageGroups: Option<seq<string>>,
    phone: Option<string>,
    verified: Option<bool>,
    image: Option<string>,
    images: Option<seq<string>>,
    insurances: Option<seq<string>>,
    bio: Option<string>)

  /** The card's picture: an image source, or the "No image" placeholder. */
  datatype Media = Photo(src: string) | Placeholder

  /** What the card shows; `None` is a part the card leaves out. */
  datatype CardView = CardView(
    media: Media,
    title: string,
    verifiedBadge: bool,
    meta: string,
    bio: Option<string>,
    services: string,
    insurance: Option<string>)

  /** A non-empty string. */
  predicate Truthy(v: Option<string>) {
    v.Some? && v.value != ""
  }

  const ServiceSeparator := " \U{2022} "
  const InsuranceSeparator := ", "

  /** `facility.images?.[0] || facility.image`, or the placeholder when
      neither is a non-empty string. */
  function DisplayImage(f: Facility): (m: Media)
    ensures f.images.Some? && |f.images.value| > 0 && f.images.value[0] != "" ==> m == Photo(f.images.value[0])
    ensures !(f.images.Some? && |f.images.value| > 0 && f.images.value[0] != "") && Truthy(f.image) ==> m == Photo(f.image.value)
    ensures m.Placeholder? <==> !(f.images.Some? && |f.images.value| > 0 && f.images.value[0] != "") && !Truthy(f.image)
    ensures m.Photo? ==> m.src != ""
  {
    var first := if f.images.Some? && |f.images.value| > 0 then Some(f.images.value[0]) else None;
    if Truthy(first) then Photo(first.value)
    else if Truthy(f.image) then Photo(f.image.value)
    else Placeholder
  }

  /** `{city}, {state}`: a missing part renders as nothing. The line splits
      back into the city, the ", " and the state. */
  function Meta(f: Facility): (s: string)
    ensures var c := f.city.GetOr(""); var st := f.state.GetOr("");
      |s| == |c| + 2 + |st| && s[..|c|] == c && s[|c| .. |c| + 2] == ", " && s[|c| + 2 ..] == st
  {
    f.city.GetOr("") + ", " + f.state.GetOr("")
  }

  /** `services?.slice(0, 4).join(" • ")`: at most four services. */
  function ServicesLine(f: Facility): (s: string)
    ensures f.services.None? ==> s == ""
    ensures f.services.Some? ==> s == Text.Join(ServiceSeparator, Text.Take(f.services.value, 4))
  {
    if f.services.None? then "" else Text.Join(ServiceSeparator, Text.Take(f.services.value, 4))
  }

  /** The " +N more" suffix for the insurances beyond the first three. */
  function MoreSuffix(n: nat): (s: string)
    ensures n <= 3 ==> s == ""
    ensures n > 3 ==> s == " +" + (Text.NatToString(n - 3) + " more")
  {
    if n > 3 then " +" + (Text.IntToString(n - 3) + " more") else ""
  }

  /** The insurance line, shown only for a non-empty list: the first three
      joined by ", ", then " +N more" when there are more. */
  function InsuranceLine(f: Facility): (s: Option<string>)
    ensures s.Some? <==> f.insurances.Some? && |f.insurances.value| > 0
    ensures s.Some? ==> s.value == Text.Join(InsuranceSeparator, Text.Take(f.insurances.value, 3)) + MoreSuffix(|f.insurances.value|)
  {
    if f.insurances.None? || |f.insurances.value| == 0 then None
    else Some(Text.Join(InsuranceSeparator, Text.Take(f.insurances.value, 3)) + MoreSuffix(|f.insurances.value|))
  }

  /** `Card({ facility })`. */
  function Card(f: Facility): (v: CardView)
    ensures v.title == f.name
    ensures v.verifiedBadge <==> f.verified == Some(true)
    ensures v.bio.Some? <==> Truthy(f.bio)
    ensures v.bio.Some? ==> v.bio == f.bio
    ensures v.media == DisplayImage(f) && v.meta == Meta(f)
    ensures v.services == ServicesLine(f) && v.insurance == InsuranceLine(f)
  {
    CardView(DisplayImage(f), f.name, f.verified == Some(true), Meta(f),
             if Truthy(f.bio) then f.bio else None, ServicesLine(f), InsuranceLine(f))
  }

  /** The services line shows every service when there are at most four,
      and exactly the first four otherwise. */
  lemma ServicesLineShowsFirstFour(f: Facility)
    requires f.services.Some?
    ensures |f.services.value| <= 4 ==> ServicesLine(f) == Text.Join(ServiceSeparator, f.services.value)
    ensures |f.services.value| > 4 ==>
      ServicesLine(f) == Text.Join(ServiceSeparator, f.services.value[..4]) &&
      ServicesLine(f) == Text.Join(ServiceSeparator, f.services.value[..3]) + ServiceSeparator + f.services.value[3]
  {
    var xs := f.services.value;
    if |xs| > 4 {
      assert xs[..4] == xs[..3] + [xs[3]];
      Text.JoinAppend(ServiceSeparator, xs[..3], xs[3]);
    }
  }

  /** The count in " +N more" reads back as the number of insurances not
      listed. */
  lemma MoreCountReadsBack(n: nat)
    requires n > 3
    ensures Text.ParseInt(MoreSuffix(n)) == Some(n - 3)
  {
    var m: nat := n - 3;
    var u := Text.NatToString(m) + " more";
    assert MoreSuffix(n) == " +" + u;
    Text.ParseIntOfSpacePlus(u);
    Text.ParseUnsignedOfNumeralPrefix(m, " more");
    assert Text.ApplySign(false, Some(m)) == Some(m as int);
  }

  /** The card of the UI smoke test: the location line and services line it
      expects. */
  lemma SmokeTestCard()
    ensures var v := Card(Facility("test-1", "Test Facility", Some("Austin"), Some("TX"),
                                   Some(["Therapy", "Counseling"]), None, None, Some(true),
                                   Some("/images/test.png"), None, None, None));
      v.title == "Test Facility" && v.meta == "Austin, TX" &&
      v.services == "Therapy \U{2022} Counseling" && v.verifiedBadge &&
      v.media == Photo("/images/test.png") && v.insurance.None? && v.bio.None?
  {
    var xs := ["Therapy", "Counseling"];
    assert Text.Take(xs, 4) == xs;
    assert Text.Join(ServiceSeparator, xs) == "Therapy" + ServiceSeparator + Text.Join(ServiceSeparator, xs[1..]);
  }
}
