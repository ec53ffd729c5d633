/**
 * The part of the static AppSettings class the windows read and write: the
 * link and language choices, the ad-block switches and lists, and the
 * navigation allow and block lists. Persisting them is a counted event.
 */
module AppSettings {
  import opened HostLists

  datatype LinkOpenMode = Ask | OpenMain | OpenChapter

  datatype LanguageMode = German | English

  class Settings {
    var linkOpenBehavior: LinkOpenMode
    var useSystemBrowser: bool
    var language: LanguageMode
    var adblockEnabled: bool
    var adblockDryRun: bool
    var adblockBlockNewWindows: bool
    var adblockPopupOpenInSameTab: bool
    var adblockBlockInPageOverlays: bool
    var adblockSiteAllowlist: seq<string>
    var adblockHardBlockDomainPatterns: seq<string>
    /** ExternalAllowedHosts and ExternalBlockedHosts: two separate lists. */
    const externalAllowedHosts: HostList
    const externalBlockedHosts: HostList
    /** How often AppSettings.Save has run. */
    ghost var saves: nat

    ghost predicate Valid()
    {
      externalAllowedHosts != externalBlockedHosts
    }

    /** Everything but the save counter and the two host lists is as before. */
    twostate predicate OnlySavesChanged()
      reads this
    {
      linkOpenBehavior == old(linkOpenBehavior) && useSystemBrowser == old(useSystemBrowser)
      && language == old(language) && adblockEnabled == old(adblockEnabled)
      && adblockDryRun == old(adblockDryRun) && adblockBlockNewWindows == old(adblockBlockNewWindows)
      && adblockPopupOpenInSameTab == old(adblockPopupOpenInSameTab)
      && adblockBlockInPageOverlays == old(adblockBlockInPageOverlays)
      && adblockSiteAllowlist == old(adblockSiteAllowlist)
      && adblockHardBlockDomainPatterns == old(adblockHardBlockDomainPatterns)
    }

    /** The initial values of the static properties. */
    constructor ()
      ensures Valid() && fresh(externalAllowedHosts) && fresh(externalBlockedHosts)
      ensures linkOpenBehavior == Ask && !useSystemBrowser && language == German
      ensures adblockEnabled && !adblockDryRun && adblockBlockNewWindows
      ensures !adblockPopupOpenInSameTab && adblockBlockInPageOverlays
      ensures adblockSiteAllowlist == [] && adblockHardBlockDomainPatterns == []
      ensures externalAllowedHosts.hosts == [] && externalBlockedHosts.hosts == []
      ensures saves == 0
    {
      linkOpenBehavior := Ask;
      useSystemBrowser := false;
      language := German;
      adblockEnabled := true;
      adblockDryRun := false;
      adblockBlockNewWindows := true;
      adblockPopupOpenInSameTab := false;
      adblockBlockInPageOverlays := true;
      adblockSiteAllowlist := [];
      adblockHardBlockDomainPatterns := [];
      externalAllowedHosts := new HostList([]);
      externalBlockedHosts := new HostList([]);
      saves := 0;
    }
  }
}
