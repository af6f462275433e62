/** The eight configuration files of a tenant. */
module TenantFiles {
  import opened Prelude
  import opened Hosting

  const DIRECTORIES: seq<string> :=
    ["pjsip_tenants", "queues_tenants", "extensions_tenants", "voicemail_tenants", "parking_tenants"]

  function GeneratedPath(prefix: string, tenant: string): Path
  {
    Conf("generated", prefix + tenant + ".conf")
  }

  function TenantConfigPaths(tenant: string): (paths: seq<Path>)
    ensures |paths| == 8
  {
    seq(5, i requires 0 <= i < 5 => Conf(DIRECTORIES[i], tenant + ".conf"))
    + [GeneratedPath("extensions_dynamic_dial-", tenant),
       GeneratedPath("extensions_dynamic_hints-", tenant),
       GeneratedPath("voicemail_dynamic_", tenant)]
  }

  const PJSIP_DYNAMIC: Path := Conf("generated", "pjsip_dynamic.conf")

  /** Which tenant a path belongs to, read back from the path alone. */
  function OwnerOf(p: Path): Option<string>
  {
    if !p.Conf? || |p.name| < 5 then None
    else if p.dir in DIRECTORIES then Some(p.name[..|p.name| - 5])
    else if p.dir != "generated" then None
    else if |p.name| >= 29 && p.name[..24] == "extensions_dynamic_dial-" then Some(p.name[24..|p.name| - 5])
    else if |p.name| >= 30 && p.name[..25] == "extensions_dynamic_hints-" then Some(p.name[25..|p.name| - 5])
    else if |p.name| >= 23 && p.name[..18] == "voicemail_dynamic_" then Some(p.name[18..|p.name| - 5])
    else None
  }

  lemma OwnerOfGenerated(prefix: string, tenant: string)
    requires prefix in {"extensions_dynamic_dial-", "extensions_dynamic_hints-", "voicemail_dynamic_"}
    ensures OwnerOf(GeneratedPath(prefix, tenant)) == Some(tenant)
  {
    var name := prefix + tenant + ".conf";
    assert name[..|prefix|] == prefix;
    assert name[|prefix|..|name| - 5] == tenant;
    if prefix == "extensions_dynamic_hints-" {
      assert name[19] == 'h' && "extensions_dynamic_dial-"[19] == 'd';
      assert name[..24][19] == 'h';
    } else if prefix == "voicemail_dynamic_" {
      assert name[0] == 'v';
      if |name| >= 29 { assert name[..24][0] == 'v'; }
      if |name| >= 30 { assert name[..25][0] == 'v'; }
    }
  }

  /** Every path of a tenant names that tenant, so two tenants never share a file. */
  lemma PathsNameTheirTenant(tenant: string)
    ensures forall p :: p in TenantConfigPaths(tenant) ==> OwnerOf(p) == Some(tenant)
    ensures PJSIP_DYNAMIC !in TenantConfigPaths(tenant)
  {
    var paths := TenantConfigPaths(tenant);
    forall i | 0 <= i < |paths| ensures OwnerOf(paths[i]) == Some(tenant) {
      if i < 5 {
        var name := tenant + ".conf";
        assert paths[i] == Conf(DIRECTORIES[i], name) && DIRECTORIES[i] in DIRECTORIES;
        assert name[..|name| - 5] == tenant;
      } else {
        OwnerOfGenerated(["extensions_dynamic_dial-", "extensions_dynamic_hints-", "voicemail_dynamic_"][i - 5],
                         tenant);
      }
    }
    assert OwnerOf(PJSIP_DYNAMIC) == None by {
      assert PJSIP_DYNAMIC.name[0] == 'p';
    }
  }

  lemma PathsAreDistinct(tenant: string)
    ensures forall i, j :: 0 <= i < j < 8 ==> TenantConfigPaths(tenant)[i] != TenantConfigPaths(tenant)[j]
  {
    var paths := TenantConfigPaths(tenant);
    forall i, j | 0 <= i < j < 8 ensures paths[i] != paths[j] {
      if j < 5 {
        assert DIRECTORIES[0][0] == 'p' && DIRECTORIES[1][0] == 'q' && DIRECTORIES[2][0] == 'e'
               && DIRECTORIES[3][0] == 'v' && DIRECTORIES[4][1] == 'a' && DIRECTORIES[0][1] == 'j';
      } else if i < 5 {
        assert DIRECTORIES[i][0] != 'g';
      } else {
        assert "extensions_dynamic_dial-"[19] == 'd' && "extensions_dynamic_hints-"[19] == 'h';
        assert paths[5].name[19] == 'd' && paths[6].name[19] == 'h';
        assert paths[5].name[0] == 'e' && paths[6].name[0] == 'e' && paths[7].name[0] == 'v';
      }
    }
  }
}
