/** The two named routes the core reverses: `notice-list` (the app's root)
    and `notice-detail` (`<int:pk>/`). `mount` is the prefix under which the
    project mounts the app; the project's own URL configuration is not part
    of this model. */
module Routes {
  import opened Maybe
  import opened Strings

  /** `reverse('notice-list')`. */
  function ListUrl(mount: string): string {
    mount
  }

  /** `reverse('notice-detail', kwargs={'pk': pk})`. */
  function DetailUrl(mount: string, pk: nat): string {
    mount + Decimal(pk) + "/"
  }

  /** URL resolution of the detail route: the `int` converter accepts one or
      more decimal digits followed by the closing '/'. */
  function ResolveDetail(mount: string, url: string): (pk: Option<nat>)
    ensures pk.Some? ==> |mount| + 2 <= |url| && url == mount + url[|mount|..|url| - 1] + "/"
    ensures pk.Some? ==> AllDigits(url[|mount|..|url| - 1]) && pk.value == DigitsValue(url[|mount|..|url| - 1])
  {
    if |url| < |mount| + 2 || url[..|mount|] != mount || url[|url| - 1] != '/' then None
    else
      var digits := url[|mount|..|url| - 1];
      if AllDigits(digits) then
        assert url == mount + digits + "/" by { assert url == url[..|mount|] + digits + [url[|url| - 1]]; }
        Some(DigitsValue(digits))
      else None
  }

  /** Every URL made of the mount prefix, a non-empty run of digits and a
      closing '/' resolves, to the value of the digits. */
  lemma ResolveDigitRun(mount: string, digits: string)
    requires digits != [] && AllDigits(digits)
    ensures ResolveDetail(mount, mount + digits + "/") == Some(DigitsValue(digits))
  {
    var url := mount + digits + "/";
    assert url[..|mount|] == mount;
    assert url[|mount|..|url| - 1] == digits;
  }

  /** Resolving a reversed detail URL gives back its primary key, so distinct
      notices get distinct URLs. */
  lemma DetailUrlRoundTrip(mount: string, pk: nat)
    ensures ResolveDetail(mount, DetailUrl(mount, pk)) == Some(pk)
  {
    var url := DetailUrl(mount, pk);
    assert url[..|mount|] == mount;
    assert url[|mount|..|url| - 1] == Decimal(pk);
    DecimalRoundTrip(pk);
  }
}
