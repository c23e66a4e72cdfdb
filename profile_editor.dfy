/** The facility profile page: up to three images, the selected insurances
    and services, and a bio of at most 300 characters. Every accepted edit
    saves the whole profile with a PUT to `/api/profile`. */
module ProfileEditor {
  import opened Wrappers
  import Text
  import Lists
  import ProfileApi

  /** The body of one save: all four fields. */
  datatype ProfileUpdate = ProfileUpdate(images: seq<string>, insurances: seq<string>, services: seq<string>, bio: string)

  /** A list of strings as JSON. */
  function Strings(xs: seq<string>): (j: ProfileApi.Json)
    ensures j.JArr? && |j.items| == |xs|
    ensures forall i :: 0 <= i < |xs| ==> j.items[i] == ProfileApi.JStr(xs[i])
  {
    ProfileApi.JArr(seq(|xs|, i requires 0 <= i < |xs| => ProfileApi.JStr(xs[i])))
  }

  /** `JSON.stringify(updates)` as the route reads it. */
  function AsPutBody(u: ProfileUpdate): ProfileApi.PutBody {
    ProfileApi.PutBody(Some(Strings(u.images)), Some(Strings(u.insurances)), Some(Strings(u.services)), Some(ProfileApi.JStr(u.bio)))
  }

  /** The page's own limits. */
  predicate WithinLimits(images: seq<string>, bio: string) {
    |images| <= 3 && Text.JsLength(bio) <= 300
  }

  /** A save the page makes within its limits passes the route's
      validation, and only such a save does. */
  lemma SaveWithinLimitsIsAccepted(u: ProfileUpdate)
    ensures ProfileApi.Validate(AsPutBody(u)).None? <==> WithinLimits(u.images, u.bio)
  {
  }

  /** The page's state and the saves it has issued, in order. Every
      handler keeps the page within its limits, so by
      `SaveWithinLimitsIsAccepted` each save it issues from a page within
      its limits passes the route's validation. */
  class ProfilePage {
    var images: seq<string>
    var selectedInsurances: seq<string>
    var selectedServices: seq<string>
    var bio: string
    var saves: seq<ProfileUpdate>

    constructor (images0: seq<string>, insurances0: seq<string>, services0: seq<string>, bio0: string)
      ensures images == images0 && selectedInsurances == insurances0 && selectedServices == services0 && bio == bio0
      ensures saves == []
    {
      images := images0;
      selectedInsurances := insurances0;
      selectedServices := services0;
      bio := bio0;
      saves := [];
    }

    /** What a save of the current state sends. */
    function Current(): ProfileUpdate
      reads this
    {
      ProfileUpdate(images, selectedInsurances, selectedServices, bio)
    }

    /** An upload: `files` is the input's file list (`None` when there is
        none) and `objectUrl` the URL made for its first file. An empty list
        makes `URL.createObjectURL` throw, and nothing changes. An image is
        added only below three. */
    method HandleImageUpload(files: Option<seq<string>>, objectUrl: string)
      modifies this
      ensures WithinLimits(old(images), old(bio)) ==> WithinLimits(images, bio)
      ensures if files.Some? && |files.value| > 0 && |old(images)| < 3 then
          images == old(images) + [objectUrl] && saves == old(saves) + [Current()]
        else images == old(images) && saves == old(saves)
      ensures selectedInsurances == old(selectedInsurances) && selectedServices == old(selectedServices) && bio == old(bio)
      ensures |old(images)| <= 3 ==> |images| <= 3
    {
      if files.Some? && |images| < 3 {
        if |files.value| == 0 {
          return;
        }
        images := images + [objectUrl];
        saves := saves + [Current()];
      }
    }

    /** Removes the image at `index`; any other index leaves the list as it
        is, and the profile is saved either way. */
    method RemoveImage(index: int)
      modifies this
      ensures WithinLimits(old(images), old(bio)) ==> WithinLimits(images, bio)
      ensures 0 <= index < |old(images)| ==> images == old(images)[..index] + old(images)[index + 1..]
      ensures !(0 <= index < |old(images)|) ==> images == old(images)
      ensures selectedInsurances == old(selectedInsurances) && selectedServices == old(selectedServices) && bio == old(bio)
      ensures saves == old(saves) + [Current()]
      ensures |images| <= |old(images)|
    {
      images := Lists.RemoveAt(images, index);
      saves := saves + [Current()];
    }

    method ToggleInsurance(insurance: string)
      modifies this
      ensures WithinLimits(old(images), old(bio)) ==> WithinLimits(images, bio)
      ensures selectedInsurances == Lists.Toggle(old(selectedInsurances), insurance)
      ensures insurance in selectedInsurances <==> insurance !in old(selectedInsurances)
      ensures images == old(images) && selectedServices == old(selectedServices) && bio == old(bio)
      ensures saves == old(saves) + [Current()]
    {
      selectedInsurances := Lists.Toggle(selectedInsurances, insurance);
      saves := saves + [Current()];
    }

    method ToggleService(service: string)
      modifies this
      ensures WithinLimits(old(images), old(bio)) ==> WithinLimits(images, bio)
      ensures selectedServices == Lists.Toggle(old(selectedServices), service)
      ensures service in selectedServices <==> service !in old(selectedServices)
      ensures images == old(images) && selectedInsurances == old(selectedInsurances) && bio == old(bio)
      ensures saves == old(saves) + [Current()]
    {
      selectedServices := Lists.Toggle(selectedServices, service);
      saves := saves + [Current()];
    }

    /** A bio edit is taken only up to 300 code units; a longer one changes
        nothing and saves nothing. The save is delayed by a second in the
        page; here it is recorded at once. */
    method HandleBioChange(value: string)
      modifies this
      ensures WithinLimits(old(images), old(bio)) ==> WithinLimits(images, bio)
      ensures Text.JsLength(value) <= 300 ==> bio == value && saves == old(saves) + [Current()]
      ensures Text.JsLength(value) > 300 ==> bio == old(bio) && saves == old(saves)
      ensures images == old(images) && selectedInsurances == old(selectedInsurances) && selectedServices == old(selectedServices)
      ensures Text.JsLength(old(bio)) <= 300 ==> Text.JsLength(bio) <= 300
    {
      if Text.JsLength(value) <= 300 {
        bio := value;
        saves := saves + [Current()];
      }
    }
  }
}
