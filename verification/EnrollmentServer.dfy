/** The storage and the handlers of the enrolment protocol as objects that update their tables in place. */
module EnrollmentServer {
  import opened Models
  import E = Enrollment
  import opened EnrollmentColumns

  datatype Response = NotFound | Forbidden | BadRequest | Failed | Done | Config | Script | Menu(nextBoot: nat)

  class Server {
    var clients: map<string, Client>
    var clusters: map<nat, Cluster>
    var nodeImages: map<nat, NodeImage>
    var images: map<string, E.Image>
    var inventory: map<string, string>
    ghost var log: seq<E.Event>

    ghost function World(): E.World
      reads this
    {
      E.World(clients, clusters, nodeImages, images, inventory, log)
    }

    constructor ()
      ensures World() == E.EMPTY
    {
      clients, clusters, nodeImages, images, inventory, log := map[], map[], map[], map[], map[], [];
    }

    // ---- Storage ----

    method AssignNodeToCluster(mac: string, cluster: nat, role: string, disk: string, patch: string,
                               token: string, expires: int, now: int) returns (found: bool)
      modifies this
      ensures World() == E.AssignNodeToCluster(old(World()), mac, cluster, role, disk, patch, token, expires, now)
      ensures found <==> mac in old(clients)
      ensures found && expires == now + 86_400_000_000_000 ==>
                AssignedFrom(old(clients)[mac], clients[mac], cluster, role, disk, patch, token, now)
    {
      found := mac in clients;
      if found {
        clients := clients[mac := clients[mac].(enrollmentState := EnrollmentState.Approved, clusterID := Some(cluster),
          clusterRole := role, installDisk := disk, configPatch := patch, enrollmentToken := token,
          tokenExpiresAt := Some(expires), approvedAt := Some(now), isStatic := true)];
        log := log + [E.TokenStored(mac, token, expires)];
      }
    }

    method SetClientEnrollmentState(mac: string, state: EnrollmentState) returns (found: bool)
      modifies this
      ensures World() == E.SetClientEnrollmentState(old(World()), mac, state)
      ensures found <==> mac in old(clients)
      ensures found ==>
                var c := old(clients)[mac].(enrollmentState := state);
                clients[mac] == if state in [Unmanaged, Installed, Rejected]
                                then c.(enrollmentToken := "", tokenExpiresAt := None) else c
    {
      found := mac in clients;
      if found {
        var row := clients[mac].(enrollmentState := state);
        match state {
          case Installed | Rejected | Unmanaged =>
            row := row.(enrollmentToken := "", tokenExpiresAt := None);
            log := log + [E.TokensCleared({mac})];
          case _ =>
        }
        clients := clients[mac := row];
      }
    }

    method ResetClientEnrollment(mac: string) returns (found: bool)
      modifies this
      ensures World() == E.ResetClientEnrollment(old(World()), mac)
      ensures found <==> mac in old(clients)
      ensures found ==> DetachedFrom(old(clients)[mac], clients[mac])
    {
      found := mac in clients;
      if found {
        clients := clients[mac := E.Detached(clients[mac])];
        log := log + [E.TokensCleared({mac})];
      }
    }

    method DeleteClusterRow(id: nat)
      modifies this
      ensures World() == E.RemoveCluster(E.DetachNodes(old(World()), id), id)
      ensures clients.Keys == old(clients).Keys && clusters == old(clusters) - {id}
      ensures forall mac <- clients ::
                if old(clients)[mac].clusterID == Some(id) then DetachedFrom(old(clients)[mac], clients[mac])
                else clients[mac] == old(clients)[mac]
    {
      ghost var nodes := set mac | mac in clients && clients[mac].clusterID == Some(id);
      clients := map mac | mac in clients ::
                 if clients[mac].clusterID == Some(id) then E.Detached(clients[mac]) else clients[mac];
      log := log + [E.TokensCleared(nodes)];
      clusters := clusters - {id};
    }

    method CreateClient(c: Client)
      modifies this
      ensures World() == E.CreateClient(old(World()), c)
    {
      if c.macAddress !in clients {
        clients := clients[c.macAddress := c];
        log := log + [E.Created(c.macAddress)];
      }
    }

    method ClearNextBootImage(mac: string)
      modifies this
      ensures World() == E.SetNextBootImage(old(World()), mac, "")
    {
      if mac in clients {
        clients := clients[mac := clients[mac].(nextBootImage := "")];
      }
    }

    // ---- Handlers ----

    /** What a config request needs: a live token, the right one; the recorded hardware id, if there is one; a cluster
        with a node image; and a provider that renders. */
    predicate MayHaveConfig(mac: string, c: Client, token: string, uuid: string, now: int, env: E.Env)
      reads this
    {
      && TokenLives(c, now) && c.enrollmentToken == token
      && (mac in inventory ==> E.ValidateUUID(inventory[mac], uuid, env.fold))
      && HasImage(c) && env.provider && env.renders
    }

    method HandleMachineConfig(mac: string, token: string, uuid: string, now: int, env: E.Env) returns (r: Response)
      modifies this
      ensures World() == E.HandleMachineConfig(old(World()), mac, token, uuid, now, env)
      ensures r == Config <==> mac in old(clients) && MayHaveConfig(mac, old(clients)[mac], token, uuid, now, env)
    {
      if mac !in clients {
        return Forbidden;
      }
      var client := clients[mac];
      if E.ValidateToken(Some(client), token, now).Some? {
        return Forbidden;
      }
      if mac in inventory && !E.ValidateUUID(inventory[mac], uuid, env.fold) {
        return Forbidden;
      }
      if client.clusterID.None? || client.clusterID.value !in clusters {
        return Forbidden;
      }
      var cluster := clusters[client.clusterID.value];
      if cluster.nodeImageID.None? || cluster.nodeImageID.value !in nodeImages || !env.provider {
        return Forbidden;
      }
      if !env.renders {
        return Failed;
      }
      ghost var readAt := |log|;
      if client.enrollmentState == EnrollmentState.Approved {
        var found := SetClientEnrollmentState(mac, Installing);
        if found {
          log := log + [E.Started(mac)];
        }
      }
      log := log + [E.ConfigServed(mac, token, uuid, now, readAt)];
      r := Config;
    }

    /** The node's cluster and its node image are there. */
    predicate HasImage(c: Client)
      reads this
    {
      && c.clusterID.Some? && c.clusterID.value in clusters
      && clusters[c.clusterID.value].nodeImageID.Some?
      && clusters[c.clusterID.value].nodeImageID.value in nodeImages
    }

    /** The node's token is live. */
    predicate TokenLives(c: Client, now: int) {
      && (c.enrollmentState == EnrollmentState.Approved || c.enrollmentState == Installing)
      && c.enrollmentToken != "" && c.tokenExpiresAt.Some? && now <= c.tokenExpiresAt.value
    }

    /** What an install script needs: a live token, and a cluster whose node image is downloaded and can be rendered. */
    predicate MayInstall(c: Client, now: int, env: E.Env)
      reads this
    {
      && TokenLives(c, now) && HasImage(c)
      && nodeImages[clusters[c.clusterID.value].nodeImageID.value].downloaded && env.provider && env.renders
    }

    method ProvisionInstallScriptFor(client: Client, now: int, env: E.Env) returns (ok: bool)
      ensures ok <==> E.CanProvision(World(), client, now, env)
      ensures ok <==> MayInstall(client, now, env)
    {
      if client.clusterID.None? || E.ValidateToken(Some(client), client.enrollmentToken, now).Some? {
        return false;
      }
      if client.clusterID.value !in clusters {
        return false;
      }
      var cluster := clusters[client.clusterID.value];
      if cluster.nodeImageID.None? || cluster.nodeImageID.value !in nodeImages {
        return false;
      }
      ok := nodeImages[cluster.nodeImageID.value].downloaded && env.provider && env.renders;
    }

    method HandleIPXEMenu(mac: string, now: int, env: E.Env) returns (r: Response)
      modifies this
      ensures World() == E.HandleIPXEMenu(old(World()), mac, now, env)
      ensures |log| > 0 && (r == Script <==> log[|log| - 1].ScriptServed?)
      ensures r == Script <==>
                old(mac in clients && clients[mac].enrollmentState == EnrollmentState.Approved
                    && MayInstall(clients[mac], now, env))
      ensures r != Script ==> r.Menu? && log[|log| - 1] == E.MenuServed(mac, r.nextBoot)
      ensures r.Menu? ==>
                var name := if mac in old(clients) then old(clients)[mac].nextBootImage else "";
                r.nextBoot == if name != "" && name in images && images[name].enabled then images[name].id else 0
      ensures r.Menu? && mac in clients ==> clients[mac].nextBootImage == ""
    {
      var nextBoot: nat := 0;
      if mac in clients {
        var client := clients[mac];
        if client.enrollmentState == EnrollmentState.Approved {
          var ok := ProvisionInstallScriptFor(client, now, env);
          if ok {
            log := log + [E.ScriptServed(mac)];
            return Script;
          }
        } else if client.enrollmentState == Installing {
          var found := SetClientEnrollmentState(mac, Installed);
          if found {
            log := log + [E.Completed(mac)];
          }
        }
        if client.nextBootImage != "" {
          if client.nextBootImage in images && images[client.nextBootImage].enabled {
            nextBoot := images[client.nextBootImage].id;
          }
          ClearNextBootImage(mac);
        }
      }
      log := log + [E.MenuServed(mac, nextBoot)];
      r := Menu(nextBoot);
    }

    method AssignNode(mac: string, cluster: nat, role: string, disk: string, patch: string, token: string, now: int)
      returns (r: Response)
      modifies this
      ensures World() == E.AssignNode(old(World()), mac, cluster, role, disk, patch, token, now)
      ensures r == Done <==> mac != "" && (role == CONTROL_PLANE || role == WORKER) && cluster in clusters
      ensures r == Done ==>
                && clients.Keys == old(clients).Keys + {mac}
                && (forall m <- old(clients) | m != mac :: clients[m] == old(clients)[m])
                && var d := clients[mac];
                   && d.enrollmentState == EnrollmentState.Approved && d.clusterID == Some(cluster)
                   && d.clusterRole == role && d.installDisk == disk && d.configPatch == patch
                   && d.enrollmentToken == token && d.tokenExpiresAt == Some(now + 86_400_000_000_000)
                   && d.approvedAt == Some(now) && d.isStatic
                   && d.macAddress == (if mac in old(clients) then old(clients)[mac].macAddress else mac)
                   && d.name == (if mac in old(clients) then old(clients)[mac].name else "")
                   && d.nextBootImage == (if mac in old(clients) then old(clients)[mac].nextBootImage else "")
      ensures r != Done ==> World() == old(World())
    {
      if mac == "" || (role != CONTROL_PLANE && role != WORKER) {
        return BadRequest;
      }
      if cluster !in clusters {
        return NotFound;
      }
      if mac !in clients {
        CreateClient(E.NewClient(mac));
      }
      var found := AssignNodeToCluster(mac, cluster, role, disk, patch, token, now + E.TOKEN_TTL, now);
      log := log + [E.Event.Approved(mac)];
      r := Done;
    }

    method ReinstallNode(mac: string, token: string, now: int) returns (r: Response)
      modifies this
      ensures World() == E.ReinstallNode(old(World()), mac, token, now)
      ensures r == Done <==> mac in old(clients) && old(clients)[mac].clusterID.Some?
      ensures r == Done ==>
                var c := old(clients)[mac];
                AssignedFrom(c, clients[mac], c.clusterID.value, c.clusterRole, c.installDisk, c.configPatch, token,
                             now)
    {
      if mac !in clients {
        return NotFound;
      }
      var client := clients[mac];
      if client.clusterID.None? {
        return Failed;
      }
      var found := AssignNodeToCluster(mac, client.clusterID.value, client.clusterRole, client.installDisk,
                                       client.configPatch, token, now + E.TOKEN_TTL, now);
      r := Done;
    }

    method UnassignNode(mac: string) returns (r: Response)
      modifies this
      ensures World() == E.ResetClientEnrollment(old(World()), mac)
      ensures r == Done <==> mac in old(clients)
    {
      var found := ResetClientEnrollment(mac);
      r := if found then Done else NotFound;
    }

    method MarkNodeInstalled(mac: string) returns (r: Response)
      modifies this
      ensures World() == E.SetClientEnrollmentState(old(World()), mac, Installed)
      ensures r == Done <==> mac in old(clients)
    {
      var found := SetClientEnrollmentState(mac, Installed);
      r := if found then Done else NotFound;
    }

    method DeleteCluster(id: nat) returns (r: Response)
      modifies this
      ensures World() == E.DeleteCluster(old(World()), id)
      ensures r == Done <==> id in old(clusters)
    {
      if id !in clusters {
        return NotFound;
      }
      DeleteClusterRow(id);
      r := Done;
    }
  }
}
