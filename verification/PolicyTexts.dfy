/** The settings that the loader itself asks for, by their names. */
module PolicyTexts {
  import opened GoStrings
  import opened DsmPolicy

  /** The value of a key, unless the platform or the user has one; the user's wins. */
  predicate Reads(out: map<Bytes, Bytes>, platform: map<Bytes, Bytes>, user: map<Bytes, Bytes>, key: string,
                  value: string)
  {
    && IsText(key) && IsText(value)
    && ValueOf(out, Ascii(key))
       == Some(if Ascii(key) in user then user[Ascii(key)]
               else if Ascii(key) in platform then platform[Ascii(key)]
               else Ascii(value))
  }

  lemma KeyReads(out: map<Bytes, Bytes>, platform: map<Bytes, Bytes>, user: map<Bytes, Bytes>, key: string,
                 value: string)
    requires forall k :: ValueOf(out, k) == Layered(platform, user, k)
    requires IsText(key) && IsText(value) && Ascii(key) in LoaderPolicy() && LoaderPolicy()[Ascii(key)] == Ascii(value)
    ensures Reads(out, platform, user, key, value)
  {
    hide LoaderPolicy;
    assert ValueOf(out, Ascii(key)) == Layered(platform, user, Ascii(key));
  }

  lemma LongTexts()
    ensures IsText("support_disk_") && IsText("compatibility") && IsText("://127.0.0.1/") && IsText("autoupdate/")
  {
  }

  lemma FeedIs(scheme: string, path: string)
    requires IsText(scheme) && IsText(path)
    ensures var url := scheme + "://127.0.0.1/" + "autoupdate/" + path;
            IsText(url) && LocalFeed(Ascii(scheme), Ascii(path)) == Ascii(url)
  {
    hide IsText;
    LongTexts();
    AsciiConcat(scheme, "://127.0.0.1/");
    AsciiConcat(scheme + "://127.0.0.1/", "autoupdate/");
    AsciiConcat(scheme + "://127.0.0.1/" + "autoupdate/", path);
  }

  lemma DiskSetting()
    ensures IsText("yes") && Ascii("support_disk_") + Ascii("compatibility") in LoaderPolicy()
    ensures LoaderPolicy()[Ascii("support_disk_") + Ascii("compatibility")] == Ascii("yes")
  {
    hide LocalFeed;
  }

  lemma FeedSetting()
    ensures IsText("rss_server") && Ascii("rss_server") in LoaderPolicy()
    ensures LoaderPolicy()[Ascii("rss_server")] == LocalFeed(Ascii("http"), Ascii("genRSS.php"))
  {
    hide LocalFeed;
  }

  lemma SslFeedSetting()
    ensures IsText("rss_server_ssl") && Ascii("rss_server_ssl") in LoaderPolicy()
    ensures LoaderPolicy()[Ascii("rss_server_ssl")] == LocalFeed(Ascii("https"), Ascii("genRSS.php"))
  {
    hide LocalFeed;
  }

  lemma ListFeedSetting()
    ensures IsText("rss_server_v2") && Ascii("rss_server_v2") in LoaderPolicy()
    ensures LoaderPolicy()[Ascii("rss_server_v2")] == LocalFeed(Ascii("http"), Ascii("v2/getList"))
  {
    hide LocalFeed;
  }

  lemma DiskReads(out: map<Bytes, Bytes>, platform: map<Bytes, Bytes>, user: map<Bytes, Bytes>)
    requires forall k :: ValueOf(out, k) == Layered(platform, user, k)
    ensures Reads(out, platform, user, "support_disk_" + "compatibility", "yes")
  {
    hide LoaderPolicy, IsText, Reads, Layered, ValueOf;
    LongTexts();
    AsciiConcat("support_disk_", "compatibility");
    DiskSetting();
    KeyReads(out, platform, user, "support_disk_" + "compatibility", "yes");
  }

  lemma FeedReads(out: map<Bytes, Bytes>, platform: map<Bytes, Bytes>, user: map<Bytes, Bytes>, key: string,
                  scheme: string, path: string)
    requires forall k :: ValueOf(out, k) == Layered(platform, user, k)
    requires IsText(key) && IsText(scheme) && IsText(path) && Ascii(key) in LoaderPolicy()
    requires LoaderPolicy()[Ascii(key)] == LocalFeed(Ascii(scheme), Ascii(path))
    ensures Reads(out, platform, user, key, scheme + "://127.0.0.1/" + "autoupdate/" + path)
  {
    hide LoaderPolicy, IsText, Reads, Layered, ValueOf;
    FeedIs(scheme, path);
    KeyReads(out, platform, user, key, scheme + "://127.0.0.1/" + "autoupdate/" + path);
  }

  /** The four keys of the loader, with the disk check left on and the update server on the machine itself. */
  lemma PolicyReads(out: map<Bytes, Bytes>, platform: map<Bytes, Bytes>, user: map<Bytes, Bytes>)
    requires forall k :: ValueOf(out, k) == Layered(platform, user, k)
    ensures Reads(out, platform, user, "support_disk_" + "compatibility", "yes")
    ensures Reads(out, platform, user, "rss_server", "http" + "://127.0.0.1/" + "autoupdate/" + "genRSS.php")
    ensures Reads(out, platform, user, "rss_server_ssl", "https" + "://127.0.0.1/" + "autoupdate/" + "genRSS.php")
    ensures Reads(out, platform, user, "rss_server_v2", "http" + "://127.0.0.1/" + "autoupdate/" + "v2/getList")
  {
    hide LoaderPolicy, Reads, Layered, ValueOf;
    DiskReads(out, platform, user);
    FeedSetting();
    SslFeedSetting();
    ListFeedSetting();
    FeedReads(out, platform, user, "rss_server", "http", "genRSS.php");
    FeedReads(out, platform, user, "rss_server_ssl", "https", "genRSS.php");
    FeedReads(out, platform, user, "rss_server_v2", "http", "v2/getList");
  }
}
