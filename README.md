# MyGdxGame arena: simulation and replication core

This project models the core of MyGdxGame, a libGDX grid-arena game. Heroes
and enemies stand on the cells of a board, one character per cell. Each side
keeps to its own half of the board, moves one cell at a time, and shoots
bullets at the living opponent with the least health. A bullet flies in a
straight line and damages every living character it overlaps. The game is
lost by the side whose characters are all dead.

In multiplayer mode one server owns the game. Each client that connects gets
the serialized game state and the index of its own hero. It then sends that
hero's moves and shots to the server. The server applies them and queues each
resulting hero move for every connected client. A queue is flushed as
`|`-delimited text, and each client replays the events it receives on its own
copy of the state.

The modules follow the source packages:

- `Settings` models `config/Config.java`.
- `MapScreen` models the apply button of `game/ChangeMapScreen.java`.
- `Occupancy` models both board classes, `map/Map.java` and `matrix/Map.java`.
- `Entities` models `entity/Entity.java`, `character/*.java` and `bullet/Bullet.java`.
- `GameWorld` models `controller/GameState.java`.
- `Events` models `event/*.java`.
- `Simulation` models the characters' `update` and `run` methods and `bullet/BulletUpdater.java`.
- `Controller` models `controller/GameController.java`.
- `Server` models `nio/GameServer.java`.
- `Client` models `nio/GameClient.java`.
- `Text`, `Lists` and `Outcomes` hold what the Java runtime provides:
  - `String.split`, `trim` and `Integer.parseInt`;
  - `List.remove` and `removeAll`;
  - exceptions as results.

Objects whose fields the source updates in place are classes:

- characters, bullets, the board, the game state and the settings;
- the server's connection table and message queues;
- the client and its input handler.

Events, boards as values, and wire text are datatypes and functions. Each
method is proved against a specification function or predicate, and lemmas
state what those guarantee.

## Model

| member | source | states |
|---|---|---|
| Settings.PerSideCount | core/src/com/mygdx/config/Config.java:15-16 | the per-side character count is (rows + cols) / 4 truncated toward zero, as Java's int cast does, for either sign of the sum |
| Settings.Config.constructor | core/src/com/mygdx/config/Config.java:9-19 | the static defaults: a 10 by 10 board of 320 by 320 pixels, a 420-pixel camera, five characters a side, every derived field consistent |
| Settings.Config.ChangeConfig | core/src/com/mygdx/config/Config.java:41-50 | the new size is stored and every derived field (camera, map size, per-side counts) agrees with it afterwards |
| MapScreen.ValidInputs | core/src/com/mygdx/game/ChangeMapScreen.java:83-85 | a size is accepted exactly when it is 6, 8, 10 or 12 |
| MapScreen.AcceptedSizeFitsCharacters | core/src/com/mygdx/game/ChangeMapScreen.java:39-42 | any accepted size gives each side 3 to 6 characters, fewer than the cells of its half, so spawning can always find a free cell |
| MapScreen.Apply | core/src/com/mygdx/game/ChangeMapScreen.java:37-59 | the number error shows exactly when a field does not parse; the settings change exactly when both parse and are accepted, and stay untouched otherwise |
| Occupancy.Board.Write | core/src/com/mygdx/matrix/Map.java:36-42 | a write keeps the board's shape and size |
| Occupancy.Empty | core/src/com/mygdx/matrix/Map.java:16-26 | a new board reads free at every on-map point and 2 off the map |
| Occupancy.ReadAfterWrite | core/src/com/mygdx/matrix/Map.java:28-42 | a read after a write gives the written value on the same cell and the old value everywhere else; off-map reads stay 2 |
| Occupancy.WriteOffMapIsNoop | core/src/com/mygdx/map/Map.java:69-77 | a write to an off-map point leaves the board as it was |
| Occupancy.BinaryReadsAndWrites | core/src/com/mygdx/map/Map.java:51-77 | on a board of free and taken cells every read is 0, 1 or 2, and writing 0 or 1 keeps it so |
| Occupancy.OccupiedAfterWrite | core/src/com/mygdx/matrix/Map.java:36-42 | the number of taken cells changes by exactly the old and the new value of the written cell |
| Occupancy.StepKeepsOccupied | core/src/com/mygdx/character/Character.java:76-80 | freeing a taken cell and taking a free one leaves the number of taken cells unchanged |
| Occupancy.DefaultMapReads | core/test/com/mygdx/matrix/MapTest.java:38-60 | the reads MapTest expects on a 10 by 10 board: corners on the map free, points off it 2, and a set cell read back as 1 |
| Occupancy.Grid.constructor | core/src/com/mygdx/map/Map.java:31-41 | the new matrix holds rows by cols free cells |
| Occupancy.Grid.Get | core/src/com/mygdx/matrix/Map.java:28-34 | the value read is the board's value at the point |
| Occupancy.Grid.Set | core/src/com/mygdx/matrix/Map.java:36-42 | the board afterwards is the old board with that point written |
| Occupancy.Grid.GetAligned | core/src/com/mygdx/map/Map.java:51-59 | the read as above, for cell corners, and 0, 1 or 2 on a binary board |
| Occupancy.Grid.SetAligned | core/src/com/mygdx/map/Map.java:69-77 | the write as above, for cell corners and 0 or 1, and a binary board stays binary |
| Lists.FirstIndex | core/src/com/mygdx/controller/GameState.java:45-47 | the first position holding the element |
| Lists.RemoveFirstCutsFirstOccurrence | core/src/com/mygdx/controller/GameState.java:45-47 | List.remove cuts out exactly the first occurrence, and changes nothing when the element is absent |
| Lists.RemoveFirstMultiset | core/src/com/mygdx/controller/GameState.java:45-47 | List.remove takes one copy of the element out and nothing else |
| Lists.RemoveAllMembers | core/src/com/mygdx/bullet/BulletUpdater.java:36 | removeAll keeps exactly the elements not listed as gone |
| Lists.RemoveAllKeepsOrder | core/src/com/mygdx/bullet/BulletUpdater.java:36 | removeAll keeps the survivors in their original order |
| Lists.RemoveAllKeepsDistinct | core/src/com/mygdx/bullet/BulletUpdater.java:36 | removeAll of a list without repeats has none |
| Events.ParseTypeInvertsName | core/src/com/mygdx/nio/GameServer.java:156-162 | the type text read back from an event type's name is that type, and only a type's own name reads as that type |
| GameWorld.World.constructor | core/src/com/mygdx/controller/GameState.java:34-39 | the state adopts the given lists and board and has no observers |
| GameWorld.World.AddObserver | core/src/com/mygdx/controller/GameState.java:41-43 | the observer is appended |
| GameWorld.World.RemoveObserver | core/src/com/mygdx/controller/GameState.java:45-47 | the first registration of the observer is removed, and the multiset of observers loses exactly one copy of it |
| GameWorld.World.NotifyObservers | core/src/com/mygdx/controller/GameState.java:49-61 | each observer in order gets the event through the overload for its class; a bare GameEvent fails with UnsupportedOperation as soon as there is an observer |
| Entities.Character.constructor | core/src/com/mygdx/entity/Entity.java:20-26 | a character starts at the given point with the given health and attack; heroes act on their own until told otherwise |
| Entities.Character.Move | core/src/com/mygdx/entity/Entity.java:56-59 | the position becomes the given point |
| Entities.Character.SetHp | core/src/com/mygdx/entity/Entity.java:61-63 | health is stored as given, negative values included |
| Entities.Character.RandomMove | core/src/com/mygdx/character/Character.java:63-83 | the step is taken exactly when the target cell is free and lies in the character's half; then the old cell is freed and the new one taken, otherwise nothing changes; the character's cell stays taken |
| Entities.StepTable | core/src/com/mygdx/character/Character.java:18 | the five draws stay, go down, right, up or left: never diagonal, never more than one cell |
| Entities.HalfOfColumn | core/src/com/mygdx/character/Character.java:66-69 | on a cell corner the half test compares twice the column with the number of rows, odd row counts included |
| Entities.MinHpChoiceUnique | core/src/com/mygdx/character/Character.java:49-61 | at most one position satisfies the choice attackMinHp makes |
| Entities.MinHpTarget | core/src/com/mygdx/character/Character.java:49-57 | no target exactly when no character is alive with health below 999999; otherwise the chosen one has the least health of the living, ties going to the first |
| Entities.OffMapPositions | core/test/com/mygdx/bullet/BulletTest.java:59-75 | the positions BulletTest checks put the bullet's centre off the map, and the origin does not |
| Entities.Bullet.constructor | core/src/com/mygdx/bullet/Bullet.java:48-66 | a bullet starts with 99 health and the given position, attack, speed and heading |
| Entities.Bullet.Update | core/src/com/mygdx/bullet/Bullet.java:75-91 | the bullet advances by its speed; every living overlapped target loses the bullet's attack, several targets included; the bullet's health drops to 0 exactly when it hit something; targets change only in health |
| Simulation.Attack | core/src/com/mygdx/character/Character.java:34-47 | one new bullet is appended, leaving from the centre of the shooter's cell toward the point with the shooter's attack |
| Simulation.AttackCharacter | core/src/com/mygdx/character/Character.java:30-32 | the shot is aimed at the centre of the target's cell |
| Simulation.AttackMinHp | core/src/com/mygdx/character/Character.java:49-61 | with no eligible target the bullet list is unchanged; otherwise exactly one bullet is appended, aimed at the minimum-health choice |
| Simulation.HeroShoot | core/src/com/mygdx/character/Hero.java:60-62 | the player's shot appends one bullet aimed at the point |
| Simulation.HeroStep | core/src/com/mygdx/character/Hero.java:70-89 | the hero moves exactly when the target cell is free and in the heroes' half; then the board is updated and a HERO_MOVE with the step in cells is delivered to every observer; otherwise nothing changes and nothing is delivered |
| Simulation.Wander | core/src/com/mygdx/character/Character.java:63-83 | the random step as above, on the game's board, which stays free-or-taken |
| Simulation.Act | core/src/com/mygdx/character/Hero.java:95-100 | when an opponent is eligible, one bullet is appended, shot from the character's cell before its step at the cell centre of the minimum-health opponent; with none, the bullets are unchanged; then the random step, taken exactly when the cell is free and in the character's half |
| Simulation.HeroRun | core/src/com/mygdx/character/Hero.java:122-127 | a hero acts exactly when it is computer-driven and alive; when it does not, nothing changes; when it does, it shoots at the minimum-health enemy (if any is eligible) and takes the random step within the lesser half, as Act states |
| Simulation.EnemyRun | core/src/com/mygdx/character/Enemy.java:49-65 | an enemy acts exactly when it is alive; it then shoots at the minimum-health hero (if any is eligible) and takes the random step within the far half, as Act states |
| Simulation.Fly | core/src/com/mygdx/bullet/BulletUpdater.java:27-31 | a bullet heading beyond 90 degrees either way strikes the heroes, any other the enemies: each living target it overlaps loses the bullet's attack, and the bullet drops to 0 health exactly when it struck one; characters change only in health |
| Simulation.FlyAll | core/src/com/mygdx/bullet/BulletUpdater.java:24-35 | every bullet advances by its speed; the dead list holds exactly the bullets that are dead afterwards |
| Simulation.BulletPass | core/src/com/mygdx/bullet/BulletUpdater.java:22-37 | after the pass the bullet list holds exactly the old bullets that are still alive, in their order; the rosters are the same lists and characters change only in health |
| Controller.RosterDead | core/src/com/mygdx/controller/GameController.java:231-237 | a side is wiped out exactly when every one of its characters is dead, so an empty roster counts as wiped out |
| Controller.WithId | core/src/com/mygdx/controller/GameController.java:245 | the characters picked are exactly the roster's characters carrying the id |
| Controller.WithIdCount | core/src/com/mygdx/controller/GameController.java:241-250 | among the first n characters, as many are picked as carry the id |
| Controller.MoveHeroes | core/src/com/mygdx/controller/GameController.java:240-249 | the board, every hero's position and the number of steps are those of the reference run MarchOn from the board and heroes before the event: each hero carrying the id steps exactly when its target is free on the board it finds and in the heroes' half; one move notification per step |
| Controller.MarchOn | core/src/com/mygdx/controller/GameController.java:240-249 | the HERO_MOVE loop run on values, hero by hero in roster order; it never takes more steps than heroes carry the id |
| Controller.MarchOfOne | core/src/com/mygdx/character/Hero.java:70-89 | for an id exactly one hero carries, the run steps that hero exactly when its target read free before and lies in the heroes' half; the board then has its old cell freed and the target taken and one step is counted; otherwise the board and count stay; no other hero moves |
| Controller.MoveOfOneHero | core/src/com/mygdx/controller/GameController.java:240-249 | the same, read off the board and heroes MoveHeroes leaves |
| Controller.MarchedMoved | core/src/com/mygdx/character/Hero.java:70-89 | after the loop, every hero kept all but its position, stands on a cell corner, and stayed or, carrying the id, went one step of the event's direction into the heroes' half |
| Controller.ServerMove | core/src/com/mygdx/controller/GameController.java:239-256 | HERO_MOVE moves the heroes carrying the id as MoveHeroes states; ENEMY_MOVE fails with UnsupportedOperation and any other type with UnknownEventType, changing nothing |
| Controller.ServerHeroAttack | core/src/com/mygdx/controller/GameController.java:262-271 | one bullet per hero carrying the id, in roster order, each aimed at the point; the earlier bullets stay |
| Controller.ServerCharacterAttack | core/src/com/mygdx/controller/GameController.java:258-260 | always fails with UnsupportedOperation |
| Controller.ShiftMatching | core/src/com/mygdx/controller/GameController.java:275-295 | every character carrying the id moves by the step, unchecked against the board; all others stay; only positions change |
| Controller.ClientMove | core/src/com/mygdx/controller/GameController.java:273-299 | HERO_MOVE shifts the matching heroes and ENEMY_MOVE the matching enemies; any other type fails with UnknownEventType and moves nobody |
| Controller.ClientCharacterAttack | core/src/com/mygdx/controller/GameController.java:301-313 | the bullet the server fired is rebuilt field for field and appended |
| Controller.ClientHeroAttack | core/src/com/mygdx/controller/GameController.java:315-317 | always fails with UnsupportedOperation |
| Controller.HandleClientEvent | core/src/com/mygdx/controller/GameController.java:273-317 | the overload by event class: a HERO_MOVE or ENEMY_MOVE shifts that side's characters carrying the id by the direction in cells and leaves everyone else; another move type moves nobody; an attack appends the bullet rebuilt from the event; a hero attack fails and changes nothing |
| Controller.MarkAllRead | core/src/com/mygdx/controller/GameController.java:84-90 | after marking a list of corners, a corner reads taken when listed and on the map, and as before otherwise |
| Controller.DrawFree | core/src/com/mygdx/controller/GameController.java:80-88 | every draw it passed over lands on a cell that does not read free; it reports a cell exactly when the last draw it took lands free, and then returns that draw's corner; it reports none only after using up every draw |
| Controller.FirstFree | core/src/com/mygdx/controller/GameController.java:80-86 | the retry loop settles on the first draw from the given one on whose cell reads free, every earlier draw reading otherwise, or on none when no draw does |
| Controller.Placements | core/src/com/mygdx/controller/GameController.java:79-98 | initCharacter on values: each placed cell is the first free draw after the previous one, taken before the next is sought; never more than count cells, none for a count of zero or less |
| Controller.PlacementsShort | core/src/com/mygdx/controller/GameController.java:79-98 | fewer than count cells are placed only when no draw lands free on the board once they are taken, that is when the draws run out |
| Controller.Spawn | core/src/com/mygdx/controller/GameController.java:90-132 | the cell is taken and a new character with the side's health, attack, id "hero"+i or "enemy"+i is appended to its side's roster; the other roster is untouched |
| Controller.PlacedFacts | core/src/com/mygdx/controller/GameController.java:79-98 | characters placed on claimed cells stand on distinct corners inside the column range, each on a cell that was free before and is taken after |
| Controller.InitCharacter | core/src/com/mygdx/controller/GameController.java:79-98 | the characters stand on exactly the cells `Placements` picks from the old board and the draws, added to the side's roster in id order, on distinct free cells inside the columns [l, r); the board afterwards is the old one with exactly those cells taken; fewer than count only when no draw lands free on the new board |
| Controller.HeroesStartInTheirHalf | core/src/com/mygdx/controller/GameController.java:69 | heroes placed below half the rows start in the half that their own moves keep them in |
| Controller.PlaceEnemies | core/src/com/mygdx/controller/GameController.java:70 | the enemies stand on the cells `Placements` picks from the board the heroes left, in the far half, without touching the heroes, whose cells stay taken; fewer than count only when no draw lands free |
| Controller.InitGame | core/src/com/mygdx/controller/GameController.java:61-77 | a fresh state on an empty rows by cols board: the heroes on `Placements` of the empty board and the hero draws in the near half, then the enemies on `Placements` of the board the heroes left and the enemy draws in the far half; each roster falls short of the configured count only when its draws run out; exactly their cells taken, no bullets and no observers |
| Controller.NewGame | core/src/com/mygdx/controller/GameController.java:37-59 | given all four parts the state adopts them; with any part missing it is built afresh as initGame builds it: heroes then enemies on the cells `Placements` picks from the draws, lined up in their halves, short of the count only when the draws run out, the board exactly their cells taken |
| Server.PlayerId | core/src/com/mygdx/nio/GameServer.java:122 | every player id starts with "Player" |
| Server.PlayerIdInjective | core/src/com/mygdx/nio/GameServer.java:122-123 | two accept counts give the same id exactly when they are equal |
| Server.IssuedNext | core/src/com/mygdx/nio/GameServer.java:122-125 | each accept issues exactly one new id that was never issued before |
| Server.AppendedTwice | core/src/com/mygdx/nio/GameServer.java:202 | queueing two batches in turn is queueing them joined |
| Server.EncodingsRepeat | core/src/com/mygdx/nio/GameServer.java:198-206 | n deliveries of one event queue its JSON n times |
| Server.AppendedFrame | core/src/com/mygdx/nio/GameServer.java:166-175 | a queued message adds itself and one delimiter to that client's next flush |
| Server.BroadcastReachesReader | core/src/com/mygdx/nio/GameClient.java:117-123 | a client reading the flushed queue, with any blank padding, gets back exactly the messages queued for it, the broadcast one last |
| Server.GameServer.constructor | core/src/com/mygdx/nio/GameServer.java:41-60 | no connections, no queues, nothing sent, nothing started; the server is the game's only observer |
| Server.GameServer.SendMessage | core/src/com/mygdx/nio/GameServer.java:177-190 | a message is sent exactly when the id has a live connection |
| Server.GameServer.HandleAccept | core/src/com/mygdx/nio/GameServer.java:116-131 | both counters go up by one; the new id is "Player" + the old count, never issued before, with a live connection and an empty queue |
| Server.GameServer.SendStarts | core/src/com/mygdx/nio/GameServer.java:104-108 | "start" is sent exactly once to every live connection and to no one else |
| Server.GameServer.SendInitMessage | core/src/com/mygdx/nio/GameServer.java:96-114 | the client gets the state and the index of the last accepted player; once the table is full everyone gets "start" and the enemies and bullets are started |
| Server.GameServer.OnAcceptable | core/src/com/mygdx/nio/GameServer.java:81-83 | below the connection limit a connection is accepted and initialised; at the limit nothing changes |
| Server.GameServer.HandleRead | core/src/com/mygdx/nio/GameServer.java:133-163 | end of stream drops the connection and keeps its queue and the counters; data succeeds exactly when its type is HERO_MOVE or HERO_ATTACK, and any other type fails with UnknownEventType, queueing nothing and firing nothing |
| Server.GameServer.OnData | core/src/com/mygdx/nio/GameServer.java:154-163 | a HERO_MOVE moves the heroes as MoveHeroes states and queues its JSON once per step; a HERO_ATTACK fires one bullet per matching hero; any other type fails with UnknownEventType and changes nothing |
| Server.GameServer.OnHeroMove | core/src/com/mygdx/nio/GameServer.java:157-158 | the board and heroes are those of the reference run MarchOn, and every queue gets the move's JSON once per step it takes |
| Server.GameServer.OnHeroAttack | core/src/com/mygdx/nio/GameServer.java:159-160 | the heroes carrying the id each fire one bullet at the point, and nothing is queued |
| Server.GameServer.HandleWrite | core/src/com/mygdx/nio/GameServer.java:166-175 | the client's queue is drained in order into one text, each message followed by the delimiter; the queue is left empty and the text is sent |
| Server.GameServer.HandleEvent | core/src/com/mygdx/nio/GameServer.java:192-228 | a bare GameEvent fails with UnsupportedOperation; any other event's JSON is added to the end of every queue |
| Server.GameServer.ApplyDeliveries | core/src/com/mygdx/nio/GameServer.java:197-228 | a batch of deliveries queues their JSON texts, in order, on every queue |
| Client.SelectHero | core/src/com/mygdx/nio/GameClient.java:81-91 | the hero at the index sent with the state; a malformed message fails with its parse error and an index outside the hero list with IndexOutOfBounds |
| Client.SelectHeroRoundTrip | core/src/com/mygdx/nio/GameServer.java:99 | the client picks exactly the hero whose index the server sent, whatever blank padding fills the read buffer |
| Client.Stop | core/src/com/mygdx/nio/GameClient.java:125-137 | handling stops at a message exactly when its type is unknown or it is a HERO_ATTACK |
| Client.FirstStop | core/src/com/mygdx/nio/GameClient.java:120-138 | the first message that stops handling, or the end: every earlier one is handled |
| Client.AttackEvents | core/src/com/mygdx/nio/GameClient.java:129-130 | the CHARACTER_ATTACK events among the messages, in order, never more than the messages |
| Client.AttacksSnoc | core/src/com/mygdx/nio/GameClient.java:129-130 | one more message adds its event to the attacks, at the end, exactly when it is a CHARACTER_ATTACK |
| Client.AttacksOfAttackChunk | core/src/com/mygdx/nio/GameClient.java:117-139 | a chunk of attacks only is handled to its end and adds one bullet per message, the j-th from the j-th message |
| Client.GameClient.HandleMessage | core/src/com/mygdx/nio/GameClient.java:117-139 | the non-blank pieces are handled in order until the first failing one, whose exception is the outcome; the old bullets are kept and are followed by one bullet per CHARACTER_ATTACK before that point, the j-th rebuilt field by field from the j-th attack; the rosters stay the same lists and characters change only in position |
| Client.GameClient.OnChunk | core/src/com/mygdx/nio/GameClient.java:180-195 | "start", blanks around it ignored, starts the bullets and changes nothing else; any other text is handled as a batch of events, its attacks rebuilt in order as new bullets |
| Client.KeyDirection | core/src/com/mygdx/nio/GameClient.java:216-234 | every key moves at most one cell along one axis |
| Client.OppositeKeys | core/src/com/mygdx/nio/GameClient.java:216-234 | up and down, left and right, letters included, move in opposite directions and never stay |
| Client.KeyMoveRoutable | core/src/com/mygdx/nio/GameClient.java:236-240 | every move a key sends is a well-formed HERO_MOVE the server accepts |
| Client.InputHandler.KeyDown | core/src/com/mygdx/nio/GameClient.java:208-246 | a live hero sends a move in the key's direction at most once every INTERVAL_MILLI / 2 ms; otherwise nothing is sent and the timer is kept |
| Client.InputHandler.TouchDown | core/src/com/mygdx/nio/GameClient.java:258-278 | a live hero sends an attack at the touched world point at most once every INTERVAL_MILLI ms |
| Client.TwoKeys | core/src/com/mygdx/nio/GameClient.java:210-214 | two moves one handler sends are at least INTERVAL_MILLI / 2 ms apart |

## Left out

- Rendering, sprites, textures, sounds, cameras, dialogs and logging are not modelled. `GameController.loadTexture` only re-attaches textures after deserialization, so it is left out too. A texture is a width and height, used only by `Bullet.isDead`.
- Threads, the scheduled executor, `start`, `startHero`, `startEnemy`, `startBullet` and `stop` are left out. Each scheduled task is a method run once, and the server's start flags record that the enemies and bullets were started. Races between those threads, and the `synchronized` blocks, are not modelled.
- Float geometry is replaced by integers:
  - Positions are integers.
  - The trajectory of a shot (atan2, cos, sin) is a parameter `Aim`.
  - Sprite overlap is a parameter `overlaps`, because sprite bounds are refreshed only by rendering.
  - The camera's unproject is a parameter.
- Random draws are parameters: the direction of a random step, and the cell sequence `initCharacter` tries.
- InitCharacter: the draws are a finite list, so it places fewer than `count` characters when the draws run out before enough free cells are found; the contract states that this is the only way it falls short. Java's loop keeps drawing forever.
- Sockets, the selector loop and byte buffers are not modelled. The model sees what a read returns: end of stream or a text.
- Jackson JSON encoding and decoding are parameters (`Encoder`, `Decoder`). A decoder returns None when the type text names no event type. It also returns None for text that is not JSON: Java's `readTree` then throws JsonProcessingException, which ends the server's or client's loop. The model reports UnknownEventType for that message instead: the server reads on, and the client stops at it as it does at an unknown type.
- CharacterMove's constructor asserts directions in -1..1, but Jackson builds the event through its setters, so a decoded move may carry any direction. The model's decoder does the same, and the server then tries a jump of that many cells. The assertion is kept as `Events.WellFormed`, which the moves a client sends satisfy.
- Records, replays and `constants/Constants.java` are not part of this model.
- The server run loop's end test is `RosterDead` on either roster; the loop around it is left out.
- `Config.MAX_CONNECTIONS`, `Config.BUFFER_SIZE` and `Config.changeHeroCount` are used by the server and client but are not defined in `config/Config.java`. The model takes the connection limit as a parameter and leaves the other two out. For the same reason, `GameController.initBulletUpdaterAndExecutor` is left out: it calls a `BulletUpdater` constructor that does not exist.
- A hero or enemy read back without an id has a null id in Java, and `hero.getId().equals(...)` in the event handlers then throws NullPointerException. The model gives such a character the id "", and drops the exception: the character simply matches an event whose id is "" and no other.
- The board's bounds, the half test and `Bullet.isDead` use the board's own rows and cols. Java reads `Config.MAP_WIDTH`, `Config.MAP_HEIGHT` and `Config.ROWS` instead. The model assumes the board was built for the current Config. It does not model a `changeConfig` after the board exists, or a client whose Config differs from the server's. There a Java read can go past the matrix (ArrayIndexOutOfBoundsException), or a bullet dies at a different edge.
- `Integer.parseInt` is modelled for ASCII digits only. Other Unicode decimal digits are not accepted.
- TCP chunking is not modelled:
  - A read is taken to hold whole messages.
  - "start" or the init message merged with other text in one read is not modelled.
  - A queue flush split across reads is not modelled.
- Server.GameServer.SendStarts: Java sends "start" in HashMap order. The model states only that each live connection gets it exactly once.
- Client.InputHandler.KeyDown, Client.InputHandler.TouchDown: Java reads the clock twice, once for the test and once for the stored time. The model reads it once, as the parameter `now`.
- Server.GameServer.HandleRead: for data, the contract states the outcome and that a failure changes nothing. What a move or an attack does to the game is stated by `Server.GameServer.OnData`.
- Client.GameClient.HandleMessage: positions are stated only as "everything but the position is kept". The moves themselves are stated per event by `Controller.HandleClientEvent` and `Controller.ClientMove`.
- Simulation.FlyAll, Simulation.BulletPass: damage is stated per bullet by `Entities.Bullet.Update` and `Simulation.Fly`. For the whole pass the contracts state only which side can be damaged, not the total damage.

Behaviour of the code worth noting:

- A bullet damages every living character it overlaps in one update, not just the first one.
- A disconnecting client's queue stays in the table and keeps receiving broadcasts. The connection counter is not decreased, so a freed slot is never reused.
- The server never broadcasts attacks: `Hero.update(x, y)` notifies no observer. Only hero moves reach the clients.
- The server applies a move or attack to every hero whose id matches the event. It does not check that the sender owns that hero.
