/** One registered configuration module: the walks over its tree, its file and its hashes. */
module ConfigService {
  import opened Prelude
  import opened Words
  import opened ConfigTree
  import opened ConfigRoundTrip
  import opened Murmur3
  import opened Murmur3Stream
  import opened ConfigFile

  /** What became of a save. */
  datatype SaveResult = NothingToDo | Saved | NoSpace | WriteFailed

  class ConfigModule {
    const root: Node
    // The bytes of a double as the machine lays them out.
    const doubleBytes: real -> seq<Byte>
    var settings: Memory
    var hash: Lanes
    var syncHash: Lanes
    var fileHash: Lanes
    var fileSyncHash: Lanes
    // The module's file, if there is one.
    var file: Option<Json>

    /** `desc = {&root}`: every hash starts as zeros. */
    constructor (root: Node, settings: Memory, file: Option<Json>, doubleBytes: real -> seq<Byte>)
      ensures this.root == root && this.file == file && this.doubleBytes == doubleBytes
      ensures Value() == Desc(settings, Lanes(0, 0, 0, 0), Lanes(0, 0, 0, 0), Lanes(0, 0, 0, 0), Lanes(0, 0, 0, 0))
    {
      this.root, this.settings, this.file, this.doubleBytes := root, settings, file, doubleBytes;
      var zero := Lanes(0, 0, 0, 0);
      hash, syncHash, fileHash, fileSyncHash := zero, zero, zero, zero;
    }

    function Value(): Desc
      reads this
    {
      Desc(settings, hash, syncHash, fileHash, fileSyncHash)
    }

    /** The pair traversal of a JSON value and a node. */
    method ProcessJson(json: Json, node: Node) returns (error: Status)
      modifies this`settings
      ensures (settings, error) == Processed(json, node, old(settings))
      decreases json
    {
      error := EINVAL;
      match json
      case JNull => return;
      case JArray => return;
      case JBool(b) =>
        if node.BoolNode? {
          settings, error := settings[node.write := BoolV(b)], OK;
        }
      case JNumber(n) =>
        if node.IntNode? {
          if node.min <= ToInt(n) <= node.max {
            settings, error := settings[node.write := IntV(ToInt(n))], OK;
          } else {
            error := EDOM;
          }
        } else if node.FloatNode? {
          if FloatInRange(node.lower, node.upper, n) {
            settings, error := settings[node.write := FloatV(n)], OK;
          } else {
            error := EDOM;
          }
        }
      case JString(t) =>
        if node.TextNode? {
          if TextFits(node.size, t) {
            settings, error := settings[node.write := TextV(t)], OK;
          } else {
            error := EDOM;
          }
        } else if node.EnumNode? {
          error := SetEnum(node, t);
        }
      case JObject(fields) =>
        if node.ObjectNode? {
          settings := Entered(node.hooks, settings);
          error := ProcessFields(fields, node.children);
          var (left, status) := Exited(node.hooks, settings, error);
          settings, error := left, status;
        }
    }

    /** The first listed name that matches decides. */
    method SetEnum(node: Node, t: Text) returns (error: Status)
      requires node.EnumNode?
      modifies this`settings
      ensures (settings, error) == Processed(JString(t), node, old(settings))
    {
      for i := 0 to |node.enums|
        invariant settings == old(settings)
        invariant EnumValue(node.enums, t) == EnumValue(node.enums[i..], t)
      {
        if node.enums[i].0 == t {
          settings := settings[node.write := IntV(node.enums[i].1)];
          return OK;
        }
        assert node.enums[i..][1..] == node.enums[i + 1..];
      }
      return EINVAL;
    }

    method ProcessFields(fields: seq<Field>, children: seq<Node>) returns (error: Status)
      modifies this`settings
      ensures (settings, error) == ProcessedFields(fields, children, old(settings))
      decreases fields, 0
    {
      error := OK;
      var i := 0;
      while error == OK && i < |fields|
        invariant i <= |fields|
        invariant ProcessedFields(fields, children, old(settings))
                  == if error == OK then ProcessedFields(fields[i..], children, settings) else (settings, error)
      {
        var child := FindChild(children, fields[i].name);
        assert fields[i..][1..] == fields[i + 1..];
        if child.Some? {
          error := ProcessJson(fields[i].value, child.value);
        }
        i := i + 1;
      }
    }

    method FindChild(children: seq<Node>, name: Text) returns (child: Option<Node>)
      ensures child == Child(children, name)
    {
      for i := 0 to |children|
        invariant Child(children, name) == Child(children[i..], name)
      {
        if children[i].name == name {
          return Some(children[i]);
        }
        assert children[i..][1..] == children[i + 1..];
      }
      return None;
    }

    /** Writes a node; an object reports what its last child reported. */
    method WriteJson(node: Node) returns (fields: seq<Field>, error: Status)
      ensures (fields, error) == Wrote(node, settings)
      decreases node
    {
      fields, error := [], EINVAL;
      match node
      case IntNode(name, r, _, _, _) =>
        fields, error := [Field(name, JNumber(IntAt(settings, r) as real))], OK;
      case BoolNode(name, r, _) =>
        fields, error := [Field(name, JBool(BoolAt(settings, r)))], OK;
      case FloatNode(name, r, _, _, _) =>
        fields, error := [Field(name, JNumber(Printed(FloatAt(settings, r))))], OK;
      case TextNode(name, r, _, _) =>
        fields, error := [Field(name, JString(TextAt(settings, r)))], OK;
      case EnumNode(name, r, _, enums) =>
        var t := EnumName(enums, IntAt(settings, r));
        if t.Some? {
          fields, error := [Field(name, JString(t.value))], OK;
        }
      case ObjectNode(name, children, _) =>
        error := OK;
        var inner: seq<Field> := [];
        ghost var whole := WroteChildren(children, settings);
        assert children[0..] == children;
        for i := 0 to |children|
          invariant whole.0 == inner + WroteChildren(children[i..], settings).0
          invariant whole.1 == if i < |children| then WroteChildren(children[i..], settings).1 else error
        {
          var part;
          part, error := WriteJson(children[i]);
          inner := inner + part;
          assert children[i..][1..] == children[i + 1..];
        }
        assert children[|children|..] == [] && inner + [] == inner;
        fields := [Field(name, JObject(inner))];
    }

    /** Feeds a node to the hash: leaf values, and the names of objects before their children. */
    method HashNode(node: Node, h: Murmur3Hash)
      requires h.Valid()
      modifies h, h.accum
      ensures h.Valid() && h.Value() == Updated(old(h.Value()), HashBytes(node, settings, doubleBytes))
      ensures settings == old(settings)
      decreases node
    {
      hide Absorb, Rest, HashStep, Updated;
      match node
      case IntNode(_, r, _, _, _) => h.Update(IntBytes(IntAt(settings, r)));
      case BoolNode(_, r, _) => h.Update([if BoolAt(settings, r) then 1 else 0]);
      case FloatNode(_, r, _, _, _) => h.Update(doubleBytes(FloatAt(settings, r)));
      case TextNode(_, r, _, _) => h.Update(TextAt(settings, r));
      case EnumNode(_, r, _, enums) =>
        var t := EnumName(enums, IntAt(settings, r));
        if t.Some? {
          h.Update(t.value);
        } else {
          NothingLeft(h.Value(), []);
        }
      case ObjectNode(name, children, _) =>
        ghost var start := h.Value();
        h.Update(name);
        ghost var done := name;
        for i := 0 to |children|
          invariant h.Valid() && h.Value() == Updated(start, done)
          invariant settings == old(settings)
          invariant HashBytes(node, settings, doubleBytes) == done + HashBytesAll(children[i..], settings, doubleBytes)
        {
          HashNode(children[i], h);
          ghost var part := HashBytes(children[i], settings, doubleBytes);
          UpdatedConcat(start, done, part);
          done := done + part;
          assert children[i..][1..] == children[i + 1..];
        }
        assert done == HashBytes(node, settings, doubleBytes);
    }

    /** `config_hash`: start with seed zero, walk the tree, finalize. */
    method ConfigHash() returns (lanes: Lanes)
      ensures lanes == ModuleHash(root, settings, doubleBytes)
      ensures Value() == old(Value())
    {
      hide HashBytes, Updated, Finished;
      var h := new Murmur3Hash();
      h.Start(0);
      HashNode(root, h);
      h.Finalize();
      lanes := h.HashedLanes();
    }

    /** The once-a-second hash update for change detection. */
    method Refresh()
      modifies this`hash
      ensures hash == ModuleHash(root, settings, doubleBytes)
    {
      hash := ConfigHash();
    }

    /**
     * Writes the file unless nothing changed since the last save. `fits` says whether the text fits
     * the buffer, `written` whether writing the temporary file and renaming it worked.
     */
    method Save(force: bool, fits: bool, written: bool) returns (result: SaveResult)
      modifies this`file, this`fileHash, this`fileSyncHash
      ensures result == NothingToDo <==> !force && UpToDate(old(Value()))
      ensures result == Saved ==>
                && file == Some(FileOf(root, old(Value()))) && UpToDate(Value())
                && Value().(fileHash := old(fileHash), fileSyncHash := old(fileSyncHash)) == old(Value())
      ensures result != Saved ==> file == old(file) && Value() == old(Value())
      ensures result == Saved <==> (force || !UpToDate(old(Value()))) && fits && written
    {
      hide Wrote, FormatHashStr;
      if !force && hash == fileHash && syncHash == fileSyncHash {
        return NothingToDo;
      }
      var tree, _ := WriteJson(root);
      var json := JObject([Field(VERSION_KEY, JNumber(VERSION as real)), Field(HASH_KEY, JString(FormatHashStr(syncHash)))] + tree);
      if !fits {
        return NoSpace;
      }
      if !written {
        return WriteFailed;
      }
      file := Some(json);
      fileHash := hash;
      fileSyncHash := syncHash;
      return Saved;
    }

    /** `_process_load`: the file's fields by position, up to the first that is wrong. */
    method ProcessLoad(json: Json) returns (error: Status)
      modifies this
      ensures (Value(), error) == Loaded(json, root, old(Value()), doubleBytes) && file == old(file)
    {
      hide Processed, ModuleHash, ParseHashStr;
      error := OK;
      if !json.JObject? {
        return;
      }
      var fieldCount := 0;
      while error == OK && fieldCount < |json.fields|
        invariant fieldCount <= |json.fields| && file == old(file)
        invariant LoadedFields(json.fields, 0, root, old(Value()), doubleBytes)
                  == if error == OK then LoadedFields(json.fields[fieldCount..], fieldCount, root, Value(), doubleBytes)
                     else (Value(), error)
      {
        assert json.fields[fieldCount..][1..] == json.fields[fieldCount + 1..];
        error := LoadField(json.fields[fieldCount], fieldCount);
        fieldCount := fieldCount + 1;
      }
    }

    method LoadField(f: Field, position: nat) returns (error: Status)
      modifies this
      ensures (Value(), error) == LoadedField(f, position, root, old(Value()), doubleBytes) && file == old(file)
    {
      hide Processed, ModuleHash, ParseHashStr;
      error := OK;
      if position == 0 {
        if f.name != VERSION_KEY || !f.value.JNumber? || ToInt(f.value.n) != VERSION {
          error := EINVAL;
        }
      } else if position == 1 {
        if f.name != HASH_KEY || !f.value.JString? {
          return EINVAL;
        }
        var (h, ok) := ParseHashStr(f.value.t, fileSyncHash);
        fileSyncHash := h;
        if !ok {
          error := EINVAL;
        }
      } else if position == 2 {
        if f.name != root.name || !f.value.JObject? {
          error := EINVAL;
        } else {
          error := ProcessJson(f.value, root);
          if error == OK {
            fileHash := ConfigHash();
            hash := fileHash;
            syncHash := fileSyncHash;
          }
        }
      } else {
        error := EINVAL;
      }
    }

    /** Registering a module loads its file, if there is one. */
    method Load() returns (error: Status)
      modifies this
      ensures file == old(file)
      ensures (Value(), error) == match file case None => (old(Value()), OK)
                                             case Some(json) => Loaded(json, root, old(Value()), doubleBytes)
    {
      if file.None? {
        return OK;
      }
      error := ProcessLoad(file.value);
    }
  }

  /**
   * Save, power off, register again: a fresh descriptor over any memory gets every setting back, the
   * same hashes, and has nothing to save.
   */
  method SaveAndRegisterAgain(old': ConfigModule, settings: Memory) returns (new': ConfigModule, result: SaveResult)
    requires old'.root.ObjectNode? && SelfContained(old'.root) && Storable(old'.root, old'.settings)
    requires old'.hash == ModuleHash(old'.root, old'.settings, old'.doubleBytes)
    modifies old'
    ensures fresh(new')
    ensures SameSettings(old'.root, old(old'.settings), new'.settings)
    ensures new'.hash == old(old'.hash) && new'.syncHash == old(old'.syncHash)
    ensures result == NothingToDo
  {
    ghost var d := old'.Value();
    result := old'.Save(true, true, true);
    new' := new ConfigModule(old'.root, settings, old'.file, old'.doubleBytes);
    SaveThenLoad(old'.root, d, new'.Value(), old'.doubleBytes);
    var error := new'.Load();
    result := new'.Save(false, true, true);
  }
}
